# A model of a network stack: STCP, router, SHA-1 and HTTP request parser

The repository holds course projects in C. This project models the four that carry a hard
argument and proves what they promise:

* **STCP** (`transport-layer/src`): a TCP-like transport with 32-bit wrapping sequence numbers,
  handshake, data transfer and close, on top of length-prefixed framing, linked packet queues, a
  listen queue and the TCP checksum.
* **The router** (`router/src/router`): the ARP cache and request queue over time, longest-prefix
  match, and IP forwarding with checksum and TTL.
* **Streaming SHA-1** (`router/src/router/sha1.c`), against the one-shot definition of sections 4 to 7
  of FIPS PUB 180-1.
* **The HTTP request parser and printer** (`http-proxy/src/proxy_parse.c`), against the request format
  of RFC 1945.

`dafny verify dfyconfig.toml` checks everything.

## How the files fit together

| files | content |
|---|---|
| `Words`, `Octets` | machine words, byte strings, 16-bit fields on a little-endian host, checksums as numbers |
| `StcpEndpoint` | one endpoint as functions: every branch of `transport_init` and `control_loop` |
| `StcpSystem` | two endpoints, two FIFO channels and two applications as a transition system; its invariant |
| `StcpInvariant`, `StcpTheorems`, `StcpSegments`, `StcpTermination`, `StcpAliasing` | the invariant over every run, delivery, how the stream is cut into segments, completeness at close, no deadlock, termination, and why the bound on unacknowledged bytes is needed |
| `StcpTransport`, `StcpRefinement`, `StcpLoop` | the endpoint as a class that updates its context in place; a pass of `control_loop` as steps of the transition system; the two loops run to their end |
| `Framing` | packets over short reads and writes |
| `PacketQueue`, `ReadStream` | the linked queue, and the stream and end of file that `myread` shows |
| `EndToEnd` | the transport's runs and the reader's runs together |
| `ListenSpec`, `ListenInvariant`, `ListenQueue` | the backlog of a listening socket with the descriptor table |
| `TcpSum` | the TCP checksum |
| `ArpSpec`, `ArpSearch` | ARP cache and request queue as functions, with the recursion as written; the search that says when it returns |
| `ArpQueue`, `ArpVisit`, `ArpGiveUp`, `ArpBalance`, `ArpReturn`, `ArpSweep`, `ArpOrder` | what queueing, giving up, a visit and a sweep do and keep, and when they return |
| `ArpRuns`, `ArpTheorems`, `ArpErrors`, `ArpFates`, `ArpWitness`, `ArpCache` | what holds over every run, what the errors carry and which way they go, what becomes of each packet, two runs that end badly, and the class |
| `LongestPrefix`, `IpForward`, `Router`, `RouterBytes` | route lookup; checksum, TTL and the path of a packet; one router from header bytes to the ARP layer; its reaction on the bytes themselves |
| `Sha1Spec`, `Sha1Vectors`, `Sha1` | the standard's definition; two digests that it publishes, and laws of its functions; the streaming context |
| `CText`, `HttpSpec`, `HttpRoundTrip`, `HttpNormal`, `HttpCanonical`, `HttpHeaders`, `HttpBounds`, `HttpAccept`, `HttpParser` | C string functions; format and parser as functions; round trips; the normal form of whatever is accepted; the texts printed back byte for byte; the texts read outside the buffer; the headers and the request that are read off a text; the request object with its header array |

Each class is proved against functions on values (`View()` or `Map()` is the value), and the
run-level theorems are about those functions. Fields called history record what happened
and are read by no operation.

## Where the code does less than one would expect

Each of these is kept as the code has it, with the exact condition proved where there is one.

* The FIN counts as acknowledged when `recv_ack == sequence_num`, modulo 2^32. `StcpTheorems.AckTestExact`
  says when that test succeeds; with 2^32 units unacknowledged it succeeds wrongly, on a legal run
  (`StcpAliasing.BoundIsNeeded`).
* `last_byte_sent` and `last_ack_received` are never updated, so the window is never used up:
  segments are bounded by 536 bytes, data in flight is not bounded.
* `handle_arpreq` and `sr_send_error` call each other. When following the errors among the hops that
  are being given up leads back to one in progress, the recursion never returns, and in no other case
  (`ArpReturn.ReturnExact`); `ArpWitness.SweepNeverReturns` is a run that gets there. Chains of dead
  hops that do return are covered by every result. A sweep also notes its next request before it
  visits the current one; when the visit gives that one up as well, the sweep goes on with freed
  memory (`ArpSweep.WalkExact`, `ArpWitness.SweepUsesFreed`).
* `cksum` never returns 0, so a header whose stored checksum is 0 is refused even when it is right
  (`IpForward.AcceptsExact`). A TTL of 0 wraps to 255 (`IpForward.PathBound`, `IpForward.PathReached`).
* A packet of 0 bytes, one of more than 65535 bytes, or a receive buffer of 0 bytes breaks the
  framing (`Framing.FrameExact`).
* `myread` with a length of 0 while data is pending sets `eof` and hides that data from every later
  read (`ReadStream.ReadOfNothing`).
* The parser looks for the end of a header's value from two places after the colon on, and reads
  outside its buffer when there is none before the next NUL, or when that place is itself past the
  end. The outcome is `Wild`; `HttpBounds.ParseWildExact` says for which texts, request lines of two
  words included. When the colon is the last character before a NUL inside the buffer, the value comes
  from behind that NUL (`HttpBounds.ValueBehindNul`). `HttpAccept.ParseGoodExact` says which texts are
  accepted, so that every text is decided.
* The test for a missing path compares the length of the host with that of a part of the address that
  is the right one only for `protocol://`; `HttpAccept.AddressExact` has it as it is. An address without a slash after the host is
  refused (`HttpRoundTrip.NoPathIsBad`), although RFC 1945 allows an empty path.

## Model

| member | source | states |
|---|---|---|
| StcpInvariant.StepKeepsInv | transport-layer/src/transport.c:98-443 | every step of either side, in every interleaving, keeps the invariant: in-flight segments tile the sender's sequence space from what the receiver has to what the sender sent, acknowledgements form a non-decreasing chain, FIN flags agree with the state |
| StcpInvariant.RunKeepsInv | transport-layer/src/transport.c:98-443 | the invariant holds after every run, for any initial sequence numbers and streams of any length |
| StcpTheorems.FlowConserves | transport-layer/src/transport.c:304-323 | bytes passed up, followed by the payload in flight, are exactly the bytes taken from the sending application |
| StcpTheorems.Delivery | transport-layer/src/transport.c:98-415 | over every run, in both directions and across 32-bit wraparound: what is passed up is a prefix of what the other application writes, and segments in flight tile exactly the gap |
| StcpTheorems.AlwaysInOrder | transport-layer/src/transport.c:264-421 | over every run the out-of-order branch is not taken, the receive buffer is empty at every send so that 3072 is advertised, every data segment has 1 to 536 bytes, and `next_seq_expected` is `ack_num` until a FIN arrives |
| StcpSegments.SegmentsExact | transport-layer/src/transport.c:303-324 | over every run, for either side: the data segments that it has sent carry, in order, the bytes taken from the application; each has exactly 536 bytes or ends a buffer that the application wrote, and none runs from one buffer into the next |
| StcpEndpoint.OffPath | transport-layer/src/transport.c:326-345 | whatever the endpoint: a hang-up ends an established connection and does nothing else, and a segment's window is taken over |
| StcpEndpoint.OffPathData | transport-layer/src/transport.c:396-421 | whatever the endpoint: data not at `ack_num` is acknowledged as before, data there but not expected next is acknowledged and kept from the application |
| StcpEndpoint.Refusals | transport-layer/src/transport.c:98-213 | the handshake goes on exactly with the packets that it waits for, and refuses every other without an answer |
| StcpTheorems.AckTestExact | transport-layer/src/transport.c:374-388 | the 32-bit test for the acknowledgement of the FIN succeeds if and only if the true number of unacknowledged units is a multiple of 2^32 |
| StcpTheorems.AckTestRight | transport-layer/src/transport.c:374-388 | with fewer than 2^32 units unacknowledged it succeeds if and only if everything is acknowledged |
| StcpTheorems.RunKeepsAcked | transport-layer/src/transport.c:372-394 | in such runs `fin_acked` holds exactly when the FIN was sent and the peer acknowledged everything |
| StcpTheorems.CloseIsComplete | transport-layer/src/transport.c:348-394 | in such runs `done` implies that both FINs were exchanged and acknowledged, and `fin_acked` implies that the peer's queue holds the whole stream followed by one EOF marker |
| StcpTheorems.HangupOnlyWhenDone | transport-layer/src/transport.c:332-339 | the empty buffer of a closed socket reaches only an endpoint that is done, so the connection-error exit is not taken |
| StcpTheorems.NoDeadlock | transport-layer/src/transport.c:298-443 | in every reachable state some step is possible unless both sides are done |
| StcpTermination.RankDecreases | transport-layer/src/transport.c:298-443 | unsent bytes, unsent FINs and weighted in-flight packets decrease with every step |
| StcpTheorems.QuietIsDone | transport-layer/src/transport.c:298-443 | with both threads in `control_loop`, a state where neither side can act has both sides done |
| StcpTermination.RunsAreFinite | transport-layer/src/transport.c:298-443 | no run is longer than the rank of its first state |
| StcpTermination.EveryRunCompletes | transport-layer/src/transport.c:298-443 | whatever the interleaving, simultaneous close included, a run that cannot go on has both sides done and both streams delivered whole, with EOF |
| StcpTermination.ShortRunsComplete | transport-layer/src/transport.c:298-443 | for streams of fewer than 2^32 - 2 bytes this needs no assumption on acknowledgements |
| StcpAliasing.BoundIsNeeded | transport-layer/src/transport.c:376-377 | a legal run with 2^32 - 1 bytes outstanding in which the FIN counts as acknowledged although the peer has received nothing |
| EndToEnd.ReadsWhatWasWritten | transport-layer/src/mysock_api.c:198-233 | across the layers, for every run of the connection and every way of reading: the bytes read with `myread` are a prefix of those written with `mywrite` at the other end, and a read returns 0 if and only if the FIN has come and all of them were read |
| EndToEnd.MarkerIsFin | transport-layer/src/stcp_api.c:250-268 | the queue towards the application holds an EOF marker exactly when the FIN was received, and then the whole stream of the peer before it |
| EndToEnd.SameDequeue | transport-layer/src/mysock.c:174-228 | the transport takes from the application's queue what the linked queue gives on a partial dequeue |
| EndToEnd.ExtraMarker | transport-layer/src/mysock.c:385-388 | the empty buffer that the transport thread adds at its end changes nothing for the reader |
| StcpTransport.Transport.constructor | transport-layer/src/transport.c:74-93 | the context before the handshake |
| StcpTransport.Transport.SendPacket | transport-layer/src/transport.c:251-282 | one segment with the context's numbers and window is sent and nothing else changes |
| StcpTransport.Transport.SendSyn | transport-layer/src/transport.c:98-103 | the active opening, as `OpenActive` says |
| StcpTransport.Transport.ReceiveSynAck | transport-layer/src/transport.c:105-148 | the SYN-ACK is answered or the connection refused, as `OnSynAck` says |
| StcpTransport.Transport.ReceiveSyn | transport-layer/src/transport.c:150-178 | the SYN is answered or the connection refused, as `OnSyn` says |
| StcpTransport.Transport.ReceiveHandshakeAck | transport-layer/src/transport.c:180-213 | the last step of the passive handshake, as `OnHandshakeAck` says |
| StcpTransport.Transport.WaitForEvent | transport-layer/src/stcp_api.c:62-127 | which events are reported, and that a close is reported once and only when the application's data is taken |
| StcpTransport.Transport.HandleAppData | transport-layer/src/transport.c:303-324 | of the first buffer as many bytes are taken as the window and 536 allow and sent as one segment, the rest stays in front, and the sequence number advances by them |
| StcpTransport.Transport.HandleFin | transport-layer/src/transport.c:347-370 | the FIN is acknowledged, the EOF marker queued and the state advanced |
| StcpTransport.Transport.HandleAck | transport-layer/src/transport.c:372-394 | the three acknowledgement branches |
| StcpTransport.Transport.HandleData | transport-layer/src/transport.c:396-421 | data in order is passed up and acknowledged, other data only acknowledged |
| StcpTransport.Transport.HandleNetworkData | transport-layer/src/transport.c:326-422 | one packet taken from the queue and processed, the hang-up included |
| StcpTransport.Transport.HandleClose | transport-layer/src/transport.c:424-442 | one FIN is sent and the state advanced |
| StcpTransport.Transport.ControlLoopPass | transport-layer/src/transport.c:298-443 | a pass of the loop does what `Pass` says, all its branches in order |
| StcpTransport.Transport.ControlLoop | transport-layer/src/transport.c:285-444 | the loop: packets, writes, a close and wake-ups in any order, taken until `done`; what it leaves is what `ReactAll` says of the events taken, and it ends at the first `done` |
| StcpTransport.Transport.Write | transport-layer/src/mysock_api.c:198-210 | the buffer is appended to the application queue |
| StcpTransport.Transport.Close | transport-layer/src/mysock_api.c:161-172 | the close flag is set |
| StcpRefinement.PassIsSteps | transport-layer/src/transport.c:298-443 | a pass of the loop equals none, one or two enabled steps of the transition system, in order |
| StcpRefinement.PassOfA | transport-layer/src/transport.c:298-443 | so a pass at one end extends every legal run to a legal run with the same result |
| StcpRefinement.PassOfB | transport-layer/src/transport.c:298-443 | the same for the other end |
| StcpLoop.TurnsAreRuns | transport-layer/src/transport.c:285-444 | passes of the loops at both ends, with the handshake and the applications between them in any order: the state reached is one that a legal run reaches, with at least as many steps |
| StcpLoop.LoopsComplete | transport-layer/src/transport.c:285-444 | for streams of fewer than 2^32 - 2 bytes: the turns are no more than the rank, and where none is possible both loops have ended by `done`, each application has the other's whole stream, and one EOF marker comes last |
| StcpLoop.LoopAmongTurns | transport-layer/src/transport.c:285-444 | from any state, among any turns: the endpoint and the packets waiting for it are what its loop makes of the events there, and the packets that arrive at the other end are those that the loop sent, in order, then the hang-up |
| Framing.FrameExact | transport-layer/src/network_io_tcp.c:153-238 | a frame is read back, cut to the buffer, and the stream left at the next frame if and only if the packet has 1 to 65535 bytes and the buffer is not empty |
| Framing.FrameOnWire | transport-layer/src/network_io_tcp.c:135-160 | on the wire the high byte of the length comes first, then the low byte, then the packet |
| Framing.FramesRecovered | transport-layer/src/network_io_tcp.c:135-239 | any sequence of such packets is recovered, frames too long for the buffer not disturbing later ones |
| Framing.Socket.WriteAll | transport-layer/src/network_io_tcp.c:243-265 | for any schedule of short writes all bytes are written, or the connection failed |
| Framing.Socket.ReadAll | transport-layer/src/network_io_tcp.c:243-265 | for any schedule of short reads exactly the bytes asked for are read, or 0 is returned at the end of the stream |
| Framing.Socket.Send | transport-layer/src/network_io_tcp.c:135-160 | a frame is appended to the stream |
| Framing.Socket.Recv | transport-layer/src/network_io_tcp.c:163-239 | on a connected socket, what a receive returns, whether or not the connection fails while the remainder is discarded, and what it leaves on the stream |
| Framing.Socket.Drain | transport-layer/src/network_io_socket.c:260-291 | the receiving thread queues what `ReceiveAll` says, then the empty buffer |
| Framing.Transfer | transport-layer/src/network_io_tcp.c:135-265 | end to end, for any two schedules, the receiver queues the packets sent, in order, then the empty buffer |
| Framing.EndIsLast | transport-layer/src/network_io_socket.c:260-291 | no packet that is received is empty, so the empty buffer is only at the end |
| PacketQueue.Queue.Enqueue | transport-layer/src/mysock.c:130-165 | the buffer comes last, the list stays well formed from head to tail, and the asserts hold |
| PacketQueue.Queue.Dequeue | transport-layer/src/mysock.c:174-228 | the first bytes of the front buffer, as many as fit; partial removal leaves the rest of it in front, whole removal drops it and returns its length; the other buffers are unchanged, the list well formed |
| ReadStream.RunInv | transport-layer/src/mysock_api.c:212-233 | any interleaving of queued buffers and reads keeps: bytes read plus bytes queued are the bytes written, and the end of file stands where the first empty buffer was |
| ReadStream.StreamTheorem | transport-layer/src/mysock_api.c:212-233 | over every run the bytes read are a prefix of those written, and a read returns 0 exactly from the first EOF marker on |
| ReadStream.ReadOfNothing | transport-layer/src/mysock_api.c:222-230 | a read of 0 bytes keeps this if and only if it finds the end of file |
| ReadStream.EndIsFinal | transport-layer/src/mysock_api.c:222-223 | after a read of 0 nothing more is read |
| ReadStream.Reader.Pass | transport-layer/src/stcp_api.c:250-268 | data and the EOF marker are queued for the application |
| ReadStream.Reader.Read | transport-layer/src/mysock_api.c:212-233 | `myread` as one read of the stream: the first bytes of the front buffer, as many as were asked for or as it has, and the rest stays in front; 0 after the end |
| ListenInvariant.QueuesExact | transport-layer/src/connection_demux.c:160-246 | a SYN is queued if and only if no pending connection has its peer, fewer than backlog + 1 are pending, and a descriptor is free |
| ListenInvariant.EnqueueInv | transport-layer/src/connection_demux.c:142-258 | queueing keeps the invariant |
| ListenInvariant.CompleteInv | transport-layer/src/connection_demux.c:260-304 | completing keeps the invariant |
| ListenInvariant.AcceptInv | transport-layer/src/connection_demux.c:74-118 | accepting keeps the invariant, and finds the counter positive |
| ListenInvariant.QueueTheorem | transport-layer/src/connection_demux.c:74-304 | over every run `cur_len` is the number of occupied slots, at most backlog + 1; completed entries are distinct occupied slots; pending peers and descriptors are distinct |
| ListenInvariant.AcceptOrderTheorem | transport-layer/src/connection_demux.c:74-304 | over every run connections are accepted at most once each, in the order of completion |
| ListenInvariant.AssertionsHold | transport-layer/src/connection_demux.c:113-281 | over every run the assertions that a slot is found, that a completing connection is in the queue and that the counter is positive hold |
| ListenQueue.ListenQueue.constructor | transport-layer/src/connection_demux.c:310-357 | a new queue has backlog + 1 free slots |
| ListenQueue.ListenQueue.NewMysocket | transport-layer/src/mysock.c:38-64 | the first unused descriptor is taken, or -1 returned and nothing changed |
| ListenQueue.ListenQueue.SlotOfPeer | transport-layer/src/connection_demux.c:174-187 | the first slot for the peer, or none |
| ListenQueue.ListenQueue.FreeSlot | transport-layer/src/connection_demux.c:194-198 | the first free slot, or none |
| ListenQueue.ListenQueue.SlotOfSd | transport-layer/src/connection_demux.c:274-279 | the first slot with the descriptor, or none |
| ListenQueue.ListenQueue.Establish | transport-layer/src/connection_demux.c:201-246 | the connection gets a descriptor and the slot, or nothing changes |
| ListenQueue.ListenQueue.EnqueueConnection | transport-layer/src/connection_demux.c:142-258 | the new state, the return value, and the invariant |
| ListenQueue.ListenQueue.ConnectionComplete | transport-layer/src/connection_demux.c:260-304 | the connection goes to the end of the completed list |
| ListenQueue.ListenQueue.DequeueConnection | transport-layer/src/connection_demux.c:74-118 | the oldest completed connection is returned and its slot freed; its descriptor is in use |
| TcpSum.SumCarryReduced | transport-layer/src/tcp_sum.c:41-60 | adding with end-around carry at every word gives the reduced plain sum |
| TcpSum.TwoFolds | transport-layer/src/tcp_sum.c:62-64 | two folds reduce every sum below 2^31 |
| TcpSum.SumSegment | transport-layer/src/tcp_sum.c:45-60 | the loop sums all words but the checksum field, odd lengths included, without signed overflow |
| TcpSum.TcpChecksum | transport-layer/src/tcp_sum.c:14-67 | the deferred carries give the end-around-carry checksum for every segment of 20 to 65522 bytes |
| TcpSum.ChecksumSwaps | transport-layer/src/tcp_sum.c:26-43 | the checksum is the same with source and destination exchanged |
| TcpSum.SetChecksum | transport-layer/src/tcp_sum.c:70-84 | only the checksum field changes, to the checksum |
| TcpSum.VerifyChecksum | transport-layer/src/tcp_sum.c:87-105 | the test made, with the addresses the other way round |
| TcpSum.SetVerifies | transport-layer/src/tcp_sum.c:70-105 | what one end sets, the other verifies |
| TcpSum.VerifyExact | transport-layer/src/tcp_sum.c:87-105 | verification succeeds if and only if the one's-complement sum over everything is all ones and the field is not |
| TcpSum.VerifyOnBytes | transport-layer/src/tcp_sum.c:14-105 | a segment verifies if and only if the twelve bytes of the pseudo header, the length with its high byte first, and the segment, read as one number, are a multiple of 65535 and bytes 16 and 17 are not both 255 |
| TcpSum.PseudoOnBytes | transport-layer/src/tcp_sum.c:18-43 | the words summed for the pseudo header are those of its twelve bytes |
| TcpSum.SwappedSum | transport-layer/src/tcp_sum.c:45-60 | the sum of the words as the host loads them is 256 times the sum of the words high byte first, modulo 65535 |
| ArpReturn.ReturnExact | router/src/router/sr_arpcache.c:28-55 | `handle_arpreq`, with the call of itself through `sr_send_error`, returns if and only if a depth-first search over return hops among the requests being given up, the errors' own source addresses included, meets no hop in progress again |
| ArpReturn.VisitIsResult | router/src/router/sr_arpcache.c:28-55 | whatever number of nested calls is enough, the result is the same, and is what `Visited` says |
| ArpReturn.TrapNeverReturns | router/src/router/sr_router.c:488-505 | no call returns in a set of dead hops each of which has a packet whose error waits in the set |
| ArpReturn.ClearReturns | router/src/router/sr_router.c:488-505 | a call returns when no error about the waiting packets has to wait for a hop being given up |
| ArpSweep.WalkExact | router/src/router/sr_arpcache.c:19-26 | a sweep gets through, never returns, or goes on with a request that a visit has freed, exactly as a scan of the list with that search says |
| ArpTheorems.EventExact | router/src/router/sr_arpcache.c:19-55 | the same for every event, forwarding, ARP reply and sweep |
| ArpWitness.SilenceRuns | router/src/router/sr_arpcache.c:28-55 | two datagrams for two silent hops, five broadcasts each: a run from the start, whatever the routes |
| ArpWitness.SweepNeverReturns | router/src/router/sr_arpcache.c:36-40 | after that run the next sweep never returns, when the route back to a sender goes through the hop its datagram waited for |
| ArpWitness.SweepUsesFreed | router/src/router/sr_arpcache.c:22-24 | after that run the next sweep goes on with a freed request, when giving up the first hop gives up the second; the visit itself returns |
| ArpRuns.RunKeepsInv | router/src/router/sr_arpcache.c:19-215 | every run of forwards, ARP replies and sweeps that return, under a monotone clock, keeps the invariant |
| ArpRuns.ForwardInv | router/src/router/sr_router.c:264-275 | forwarding a packet keeps the invariant, detours through other dead hops included |
| ArpRuns.ReplyInv | router/src/router/sr_router.c:356-378 | an ARP reply keeps the invariant |
| ArpRuns.SweepInv | router/src/router/sr_arpcache.c:265-274 | a sweep keeps the invariant |
| ArpTheorems.PacketsConserved | router/src/router/sr_arpcache.c:28-215 | over every such run each accepted packet is in exactly one place: waiting under its next hop, sent once, or given up once |
| ArpTheorems.SentAndAnswered | router/src/router/sr_router.c:356-378 | every packet sent after a wait carried the address of an accepted reply for that hop; the errors sent at once are, in order, those about the packets given up whose return hop was known; each packet was accepted as often as forwarding brought it and an error was queued for a packet given up |
| ArpTheorems.ErrorsCounted | router/src/router/sr_router.c:432-506 | so there are as many errors, sent or queued, as packets given up that have a route back |
| ArpErrors.ErrorsExact | router/src/router/sr_router.c:432-506 | over every run: the errors sent at once answer, in order, the packets given up whose return hop was known, and a packet was accepted for a hop as often as forwarding brought it and as it is the error about a packet given up: about its frame, with the address of the interface on which it waited, through gateway and interface of the route to the frame's source |
| ArpErrors.EachErrorOnItsWay | router/src/router/sr_router.c:432-506 | so each error sent at once, and each packet waiting or sent after a wait that forwarding did not bring, is such an error |
| ArpFates.EventFates | router/src/router/sr_router.c:432-506 | what an event gives up: the error is sent at once, to the address there, if and only if the way back is in the cache, and queued otherwise; a forward to a dead hop gives its packets up in the order of the list, the new one first; a forward to a cached hop sends the packet there |
| ArpFates.VisitedFates | router/src/router/sr_arpcache.c:28-55 | a visit of a dead hop gives up its packets in the order of the list; any other visit gives up none |
| ArpFates.EveryForward | router/src/router/sr_router.c:264-275 | over every run a packet is sent at once or queued, once for each time that it is forwarded |
| ArpFates.ReplySends | router/src/router/sr_router.c:356-378 | a reply sends what waited for it, in the order of the list, to the address that it brings |
| ArpFates.ReplyStores | router/src/router/sr_arpcache.c:159-170 | a reply fills the first entry not in use and leaves the others |
| ArpFates.LookupLast | router/src/router/sr_arpcache.c:61-83 | a lookup gives the address in the last valid entry for the hop |
| ArpTheorems.QueueShape | router/src/router/sr_arpcache.c:28-55 | pending hops are distinct and have packets; broadcasts are more than a second apart and at most five; a request was given up only after exactly five and more than a second after the last |
| ArpTheorems.AskedAtOnce | router/src/router/sr_arpcache.c:28-55 | through every run each request in the queue has been broadcast, if and only if none is made before the clock is past one second (a new request carries the time 0) |
| ArpTheorems.EventAsks | router/src/router/sr_arpcache.c:28-55 | the same for one event |
| ArpTheorems.EventMoves | router/src/router/sr_arpcache.c:19-55 | what one event does to one hop: a dead one is left alone or given up, and given up if visited; a live one is asked at most once, and if visited exactly once when due; a new one is asked at once |
| ArpTheorems.EventProgress | router/src/router/sr_arpcache.c:28-55 | a due visit is one more broadcast or, after the fifth, the end of the request; a request ends in no other way but by a reply, or when a hop whose error it has to pass on is given up |
| ArpTheorems.DueVisitsBounded | router/src/router/sr_arpcache.c:32-53 | an unanswered request sees at most five minus `times_sent` due visits while it is in the queue |
| ArpTheorems.LookupExact | router/src/router/sr_arpcache.c:61-83 | over every run a lookup hits if and only if some stored reply for the address was no older than 15 seconds at the latest sweep, and returns the address of such a reply |
| ArpTheorems.LookupAgrees | router/src/router/sr_arpcache.c:61-83 | where those replies agree the cache is the plain map |
| ArpSweep.VisitedSteps | router/src/router/sr_arpcache.c:28-55 | a visit that returns, hop by hop: those the search reaches are given up, the other dead ones untouched, live ones asked at most once |
| ArpSweep.VisitedQueue | router/src/router/sr_arpcache.c:28-55 | a visit keeps hops distinct, packet lists non-empty, broadcasts spaced and at most five, and gives up only after five |
| ArpSweep.VisitedBalance | router/src/router/sr_arpcache.c:36-43 | a visit loses no packet and duplicates none |
| ArpSweep.VisitedOwed | router/src/router/sr_arpcache.c:36-40 | a visit makes one error for each packet it gives up |
| ArpSweep.WalkAt | router/src/router/sr_arpcache.c:19-26 | a sweep that gets through gives up every dead request and asks each other due one exactly once |
| ArpOrder.VisitedEnds | router/src/router/sr_arpcache.c:100-130 | a visit puts new requests at the head of the list and takes the given-up ones out, leaving the others in order |
| ArpOrder.WalksOn | router/src/router/sr_arpcache.c:19-26 | so a walk along the list has the rest of it ahead |
| ArpRuns.SweepCache | router/src/router/sr_arpcache.c:267-272 | expiry leaves exactly the stored replies that are young enough |
| ArpRuns.ReplyCache | router/src/router/sr_arpcache.c:159-170 | a reply is stored without overwriting a valid entry |
| ArpCache.ArpCache.constructor | router/src/router/sr_arpcache.c:233-240 | an empty cache of 100 entries and no request |
| ArpCache.ArpCache.Lookup | router/src/router/sr_arpcache.c:61-83 | the last valid entry for the address |
| ArpCache.ArpCache.Find | router/src/router/sr_arpcache.c:99-104 | the position of the request for the address, or the end |
| ArpCache.ArpCache.QueueReq | router/src/router/sr_arpcache.c:91-130 | the packet is queued under its hop, and the request made if there is none |
| ArpCache.ArpCache.Insert | router/src/router/sr_arpcache.c:136-175 | the request is taken out and returned, and the first free entry filled |
| ArpCache.ArpCache.Destroy | router/src/router/sr_arpcache.c:179-215 | the request is taken out and nothing else changes |
| ArpCache.ArpCache.OnReply | router/src/router/sr_router.c:356-378 | everything that waited is sent with the reply's address |
| ArpCache.ArpCache.HandleArpReq | router/src/router/sr_arpcache.c:28-55 | where the search says that it returns, it does, with the result of the recursion as written |
| ArpCache.ArpCache.HandleNested | router/src/router/sr_arpcache.c:28-55 | the same inside the calls in progress |
| ArpCache.ArpCache.GiveUpPackets | router/src/router/sr_arpcache.c:36-40 | every waiting packet is answered once, in order |
| ArpCache.ArpCache.SendError | router/src/router/sr_router.c:432-506 | the error is sent, queued with a visit of its hop, or dropped |
| ArpCache.ArpCache.Send | router/src/router/sr_router.c:264-275 | a hit leaves the queue alone, a miss queues and visits |
| ArpCache.ArpCache.Expire | router/src/router/sr_arpcache.c:267-272 | entries older than 15 seconds are invalidated, in place |
| ArpCache.ArpCache.SweepReqs | router/src/router/sr_arpcache.c:19-26 | the walk along the list with the next request noted before each visit does what `Walk` says |
| ArpCache.ArpCache.Timeout | router/src/router/sr_arpcache.c:260-277 | expiry, then the sweep |
| LongestPrefix.MasksOrdered | router/src/router/sr_router.c:397-400 | byte-swapped contiguous masks are ordered as integers by their prefix length |
| LongestPrefix.CoversIsAgree | router/src/router/sr_router.c:396 | the test on network-order words is agreement on a prefix of the host-order addresses |
| LongestPrefix.BestExact | router/src/router/sr_router.c:387-406 | for any masks: nothing exactly when no entry matches, else the last matching entry of greatest mask |
| LongestPrefix.Walk | router/src/router/sr_router.c:387-406 | the loop finds that entry |
| LongestPrefix.LongestMatch | router/src/router/sr_router.c:387-406 | for contiguous masks: nothing exactly when no entry's prefix agrees, else the last of the entries of greatest prefix length that do |
| IpForward.Accumulate | router/src/router/sr_utils.c:12-15 | the 32-bit sum does not wrap up to IP_MAXPACKET bytes, odd lengths included |
| IpForward.Fold | router/src/router/sr_utils.c:16-17 | folding ends, in the same class modulo 65535, at zero only from zero |
| IpForward.Cksum | router/src/router/sr_utils.c:8-20 | the closing number of the data, in network order |
| IpForward.ClosingExact | router/src/router/sr_utils.c:18-19 | the closing number is the only number from 1 to 65535 that makes the one's-complement total zero |
| IpForward.ClosingOnBytes | router/src/router/sr_utils.c:8-20 | on the bytes: added to the data as one number, with a zero byte after an odd length, it makes a multiple of 65535 |
| Octets.NumberIsSum | router/src/router/sr_utils.c:12-15 | the one's-complement sum of the words is the number that the bytes make, modulo 65535 |
| IpForward.AcceptsExact | router/src/router/sr_router.c:111-118 | a header is accepted if and only if its one's-complement total is zero, its twenty bytes as one number being a multiple of 65535, and bytes 10 and 11 are not both 0 |
| IpForward.SealAccepted | router/src/router/sr_router.c:248-249 | every header emitted passes the next router's test |
| IpForward.SealInPlace | router/src/router/sr_router.c:248-249 | the checksum field is filled in, in place |
| IpForward.HandleIp | router/src/router/sr_router.c:102-276 | given the results of the lookups, which packets are refused, delivered, expired, unroutable or sent, and the header that is left |
| IpForward.PathBound | router/src/router/sr_router.c:240-249 | whatever the tables, loops included, a packet of TTL n is forwarded at most n - 1 times (255 times for TTL 0), and only TTL and checksum change on the way |
| IpForward.PathReached | router/src/router/sr_router.c:240-249 | the limit is reached |
| Router.Router.Receive | router/src/router/sr_router.c:69-276 | from the bytes of a header to the ARP layer: the verdict, the header left in the buffer, and the packet, reply or ICMP error that is handed on with its next hop, through the loops over interfaces and routes |
| Router.SentByLongestPrefix | router/src/router/sr_router.c:102-276 | a datagram is handed on exactly when its header is valid, it is not for the router, its time does not run out, and the longest prefix that agrees with its destination names an interface that is there; it goes to that route's gateway with a header that the next router accepts |
| RouterBytes.ReactsOnBytes | router/src/router/sr_router.c:102-276 | the whole reaction on the header's own bytes: bytes 16 to 19 decide whether it is for the router and, bit for bit by the longest prefix, where it is sent; time exceeded, net unreachable and an answer to what is no ICMP go as one error with the arrival interface's address by the longest prefix for bytes 12 to 15, exactly when that route's interface is there; so does the reply to an echo request; nothing else is handed on |
| RouterBytes.HeaderLeft | router/src/router/sr_router.c:240-249 | the header that is left: unchanged, byte 8 cleared, or valid with byte 8 one less and only bytes 8, 10 and 11 changed |
| RouterBytes.EnvOnBytes | router/src/router/sr_router.c:452-462 | the routes that errors take are the longest prefixes for the frame's source address, bit for bit |
| Router.Router.ForUs | router/src/router/sr_router.c:120-128 | whether the address is one of the interfaces' |
| Router.Router.Lookup | router/src/router/sr_router.c:251-262 | the next hop by the best route, if its interface is there |
| Router.Router.Judge | router/src/router/sr_router.c:111-262 | the verdict on the header and what is left of it |
| Router.Router.Emit | router/src/router/sr_router.c:264-275 | the packet goes through the ARP layer once |
| Sha1.Sha1Context.Reset | router/src/router/sha1.c:71-85 | the context holds the empty message |
| Sha1.Sha1Context.Expand | router/src/router/sha1.c:221-235 | the eighty words are the standard's schedule of the block |
| Sha1.Sha1Context.Mix | router/src/router/sha1.c:237-292 | the four loops are the standard's eighty rounds |
| Sha1.Sha1Context.CountOctet | router/src/router/sha1.c:163-176 | the two length words count eight bits more, or the context is corrupted |
| Sha1.Sha1Context.InputOctet | router/src/router/sha1.c:158-184 | one octet more is held, the block index staying below 64 |
| Sha1.Sha1Context.StoreLength | router/src/router/sha1.c:358-368 | the last eight octets are the length, most significant first |
| Sha1.Sha1Context.ProcessMessageBlock | router/src/router/sha1.c:207-301 | the digest absorbs the block by the standard's compression function, and the block index is 0 |
| Sha1.Sha1Context.Input | router/src/router/sha1.c:143-185 | a context that holds `m` holds `m` followed by the portion, the two-word length exact; it is corrupted exactly when the length no longer fits |
| Sha1.Sha1Context.PadMessage | router/src/router/sha1.c:326-371 | the digest is the one-shot hash of the message, with one or two last blocks |
| Sha1.Sha1Context.PadIntoOne | router/src/router/sha1.c:349-370 | the branch with one last block |
| Sha1.Sha1Context.PadIntoTwo | router/src/router/sha1.c:334-370 | the branch with two last blocks |
| Sha1.Sha1Context.FinishBlock | router/src/router/sha1.c:344-370 | zeros and length complete a block |
| Sha1.Sha1Context.Result | router/src/router/sha1.c:104-119 | the digest is the hash; a second call leaves it; a corrupted context is refused |
| Sha1.HashInPortions | router/src/router/sha1.c:104-185 | for every split of a message into portions the digest is the one-shot hash of the whole, and succeeds exactly for fewer than 2^64 bits |
| Sha1Vectors.DigestOfShort | router/src/router/sha1.c:207-301 | the hash of "abc" is the digest that the standard publishes |
| Sha1Vectors.DigestOfLong | router/src/router/sha1.c:207-371 | so is that of its message of two blocks |
| Sha1Vectors.ChooseLaw | router/src/router/sha1.c:243-252 | where a bit of `b` is 1 the bit of `c` is taken, elsewhere that of `d` |
| Sha1Vectors.MajorityLaw | router/src/router/sha1.c:265-274 | bits that agree are the result, and the third decides where two do not |
| Sha1Vectors.ParityLaw | router/src/router/sha1.c:254-263 | each of the three bits changes the result |
| Sha1Vectors.RotateLaw | router/src/router/sha1.c:46-48 | the circular shifts in use |
| Sha1Vectors.RootLaw | router/src/router/sha1.c:209-215 | the constants are the integer square roots of 2, 3, 5 and 10 times 2^60 |
| Sha1Vectors.PadLaw | router/src/router/sha1.c:326-371 | the padded message octet by octet, with as few zeros as complete a block and the number of bits in the last eight octets |
| HttpRoundTrip.RoundTrip | http-proxy/src/proxy_parse.c:352-530 | parsing what was printed gives back every well-formed request, with or without a port, if and only if the text is at most 65535 bytes long |
| HttpCanonical.PrintExact | http-proxy/src/proxy_parse.c:299-530 | whatever text was accepted, printing the request gives its bytes back if and only if the text has no NUL, single spaces and no skipped delimiter in its line, and headers cut by colon and space with distinct keys and nothing after the empty line |
| HttpCanonical.LineExact | http-proxy/src/proxy_parse.c:391-506 | the request line alone |
| HttpCanonical.HeadersExact | http-proxy/src/proxy_parse.c:509-527 | the headers alone; a key that runs over line ends must have its later lines as keys further on, or end the headers |
| HttpCanonical.PlainRegular | http-proxy/src/proxy_parse.c:509-527 | where no key runs over a line end, that says: distinct keys |
| HttpBounds.ParseWildExact | http-proxy/src/proxy_parse.c:365-527 | the parser reads outside its buffer if and only if the length and end tests pass and either the request line is two words with nothing after them, or the line is good, the last header line has no colon, and for the first colon after the empty line no line end comes, from two places on, before the next NUL, or that place is past the terminator; a NUL inside the buffer is stepped over as the code does |
| HttpBounds.LineWildExact | http-proxy/src/proxy_parse.c:392-420 | the part about the request line |
| HttpBounds.HeadersWildExact | http-proxy/src/proxy_parse.c:233-248 | the part about the headers, with the bytes behind a NUL that follows the last colon |
| HttpBounds.ColonsAreSafe | http-proxy/src/proxy_parse.c:233-254 | with a colon in every header line the headers are accepted |
| HttpBounds.SafeRequest | http-proxy/src/proxy_parse.c:352-530 | so a request of three words with such headers is read inside the buffer |
| HttpBounds.NoVersion | http-proxy/src/proxy_parse.c:411 | a request that has no version and is read outside the buffer |
| HttpBounds.ColonAfterTheEnd | http-proxy/src/proxy_parse.c:244-247 | a request whose only colon after the line comes behind the empty line, read outside the buffer |
| HttpBounds.ValueBehindNul | http-proxy/src/proxy_parse.c:244-247 | a request with a NUL right behind its only header colon is accepted, with the text behind the NUL as the value |
| HttpAccept.LineGoodExact | http-proxy/src/proxy_parse.c:391-506 | a request line is accepted if and only if it is a word, an address that is accepted and one space before a version that starts with `HTTP/`, whatever spaces come before and between the two |
| HttpAccept.LineExactly | http-proxy/src/proxy_parse.c:391-506 | and its fields are exactly the pieces of the text that these places cut out |
| HttpAccept.AddressExact | http-proxy/src/proxy_parse.c:432-494 | an address is accepted with given fields if and only if protocol, one delimiter, any slashes, and host and port behind any colons can be read off it so, no second slash follows the one after the host, and the host and port have not the length that the test for a missing path compares with |
| HttpAccept.HeadersGoodExact | http-proxy/src/proxy_parse.c:509-527 | headers are accepted if and only if there are none, or from the last header line on there is a colon and a line end from two places after it on |
| HttpAccept.ParseGoodExact | http-proxy/src/proxy_parse.c:352-530 | so a text is accepted if and only if length and end tests pass, its line is such a line and its headers are such headers |
| HttpAccept.ParseExact | http-proxy/src/proxy_parse.c:352-530 | a parse gives the request `r` if and only if length and end tests pass, the fields of `r` are read off the first line, and its headers off the lines up to the empty one |
| HttpAccept.EffectOnBytes | http-proxy/src/proxy_parse.c:352-530 | what success and each failure leave in an object that held headers: the line, and the headers of the lines before the place where the loop stopped, behind the old ones whose keys they do not set |
| HttpRoundTrip.AnyCharacter | http-proxy/src/proxy_parse.c:226-254 | the value begins two places after the colon, whatever character stands between |
| HttpHeaders.HeadersOnBytes | http-proxy/src/proxy_parse.c:226-254 | headers are accepted with the result `hs` if and only if every line up to the empty one has a first colon after its start and a line end from two places after that on, and `hs` has, for each key, the last of them, in the order of their lines: everything before the colon, and the bytes from two places after it up to the line end |
| HttpHeaders.UntilPlaces | http-proxy/src/proxy_parse.c:509-529 | where the loop fails, the headers set are those of the lines before the first line that has none |
| HttpHeaders.UntilFromOld | http-proxy/src/proxy_parse.c:40-69 | an object that held headers keeps those whose keys the text does not set, in front |
| HttpRoundTrip.LineBack | http-proxy/src/proxy_parse.c:391-506 | the request line alone, the path "/" included |
| HttpRoundTrip.HeadersBack | http-proxy/src/proxy_parse.c:509-527 | the header lines alone |
| HttpRoundTrip.NoPathIsBad | http-proxy/src/proxy_parse.c:451-457 | an address that ends at the host is refused |
| HttpRoundTrip.ParseSound | http-proxy/src/proxy_parse.c:352-530 | whatever text is accepted, the fields are free of the delimiters that would cut them, keys are distinct and without a colon, values without a line end |
| HttpRoundTrip.LineSound | http-proxy/src/proxy_parse.c:391-506 | every request line that is accepted is well formed |
| HttpRoundTrip.EffectIsParse | http-proxy/src/proxy_parse.c:352-530 | on a new object, what a parse leaves is the request, or the error |
| HttpNormal.ChainText | http-proxy/src/proxy_parse.c:226-254 | a header line without a colon: its key runs on to the next colon, its later lines are parsed again as headers, and parsing goes on after the line of the colon or stops at an empty line |
| HttpNormal.ParseFinal | http-proxy/src/proxy_parse.c:509-527 | what any header text leaves: every such later line is set again further on in the list |
| HttpNormal.NormalForm | http-proxy/src/proxy_parse.c:299-530 | whatever text was accepted, header lines without a colon included, printing the request and parsing it again gives the same request, if and only if the printed text is at most 65535 bytes long |
| HttpRoundTrip.GetAfterSet | http-proxy/src/proxy_parse.c:40-88 | the map law of set and get |
| HttpRoundTrip.GetAfterRemove | http-proxy/src/proxy_parse.c:73-102 | the map law of remove and get |
| HttpParser.ParsedRequest.Get | http-proxy/src/proxy_parse.c:73-88 | the value of the map at the key |
| HttpParser.ParsedRequest.constructor | http-proxy/src/proxy_parse.c:276-293 | an unused object with an empty map |
| HttpParser.ParsedRequest.Find | http-proxy/src/proxy_parse.c:73-88 | the index of the live entry for the key, or the number of slots used |
| HttpParser.ParsedRequest.Grow | http-proxy/src/proxy_parse.c:46-53 | the array has twice the length and the same entries |
| HttpParser.ParsedRequest.Remove | http-proxy/src/proxy_parse.c:91-102 | a tombstone in the array removes the key from the map, and the return value says whether it was there |
| HttpParser.ParsedRequest.Set | http-proxy/src/proxy_parse.c:40-69 | the growing array refines the insertion-ordered map: the key comes last, at most one live entry per key, `headersused` below `headerslen` |
| HttpParser.ParsedRequest.HeadersLen | http-proxy/src/proxy_parse.c:141-164 | the number of bytes that printing the headers writes |
| HttpParser.ParsedRequest.LineLen | http-proxy/src/proxy_parse.c:536-551 | the number of bytes of the printed request line |
| HttpParser.ParsedRequest.TotalLen | http-proxy/src/proxy_parse.c:330-335 | the number of bytes of the printed request |
| HttpParser.ParsedRequest.PrintHeaders | http-proxy/src/proxy_parse.c:166-195 | the headers are written after what was printed, and nothing after them, exactly when they fit |
| HttpParser.ParsedRequest.PrintSlot | http-proxy/src/proxy_parse.c:181-190 | a live slot prints its line, a tombstone nothing |
| HttpParser.ParsedRequest.PrintAddress | http-proxy/src/proxy_parse.c:569-584 | protocol, host, port if any, and path |
| HttpParser.ParsedRequest.PrintRequestLine | http-proxy/src/proxy_parse.c:553-595 | the line is written to the front of the buffer, and nothing after it, exactly when it fits |
| HttpParser.ParsedRequest.Unparse | http-proxy/src/proxy_parse.c:299-311 | succeeds exactly when the buffer is long enough, and writes the printed request and nothing else |
| HttpParser.ParsedRequest.ParseHeaderLines | http-proxy/src/proxy_parse.c:509-529 | the header loop ends; the headers set before the end or the failure are in the map |
| HttpParser.ParsedRequest.Parse | http-proxy/src/proxy_parse.c:352-530 | status, line and map after success and after each failure, from whatever headers the object held; an object already in use is refused and left as it is |
| HttpParser.PrintThenParse | http-proxy/src/proxy_parse.c:299-530 | through the code: a request printed into a buffer of the announced length and parsed into a new object comes out the same |

## Left out

- Threads and locks: each branch of `control_loop`, each queue operation and each listen-queue operation is one step; the locking of the code does not always give this (transport-layer/src/connection_demux.c:160-202).
- Failures of the network other than a peer that closes, and segments that this implementation does not send (a FIN with data, for instance); both endpoints run this code over reliable FIFO channels.
- Sliding window, congestion control and retransmission, which the code does not implement.
- Memory allocation failures and freeing, but for the request that a sweep goes on with; `realloc` of the header array and of the listen queue always succeed.
- Closing a listening socket and changing the backlog after the first `mylisten`.
- `struct sockaddr` contents: a peer is a number, 0 standing for zeroed memory, and no peer has an address that is all zero.
- TcpSum.TcpChecksum: addresses are the two given words; where they come from (routing of the local interface) is not modelled.
- Framing.Socket.Recv: the accept on a listening socket and the connect on first use are not modelled.
- Framing.Socket.Drain: the exit that the transport thread asks for through the pipe is not modelled, nor is the assertion that a packet fits the buffer (transport-layer/src/network_io_socket.c:273), which ends the program on a longer frame.
- StcpTransport.Transport.ControlLoop: what arrives between two passes comes from outside and is an argument; `StcpLoop.LoopAmongTurns` says what it is when both ends run this code.
- PacketQueue.Queue.Dequeue: a partial removal moves the bytes that stay to the front of their buffer with `memcpy` (transport-layer/src/mysock.c:204); where more than `max_len` bytes stay, source and destination overlap, which C leaves undefined. The model takes the copy as a move.
- Frame contents in the router: a queued frame is an identity with its source address; Ethernet, ICMP and ARP header fields other than the addresses that the argument needs are not modelled, and an ICMP error is one whatever its type and code.
- ArpCache.ArpCache.HandleArpReq: it is required that the search says the call returns, since a method that never returns promises nothing; the other case is `ArpReturn.ReturnExact`.
- ArpCache.ArpCache.Timeout: it is required that the sweep gets through, for the same reason, and the clock is read once for all requests of a sweep and for the calls nested in a visit.
- ArpCache.ArpCache.Destroy: the list of requests is a sequence that is reassigned, and requests are told apart by their distinct hops, so the relinking of nodes is not shown; nor are the packet lists, which are sequences as well.
- Big-endian hosts, for route lookup and checksums.
- IpForward.HandleIp: the length test at the start is left out; the lookups, which are arguments here, are made in `Router.Router.Receive`.
- Router.Router.Receive: of an ICMP packet for the router only whether it is an echo request is known, and the ICMP messages are frames without their bytes.
- The in-place cutting of the request line by `strtok_r`: tokens are computed on values, with the positions that the code uses afterwards.
- HttpParser.ParsedRequest.Parse: the port text is not checked, since `strtol` leaves `errno` as it was; a stale `EINVAL` together with the port 0 is not modelled.
- Lengths beyond 2^31 in `ParsedHeader_headersLen`, which counts in an `int`.
- Everything else in the repository: sockets, file transfer client and server, the proxy process, the measurement scripts, packet dumps, printing, configuration and the connection to the simulator.
