# Megatron, modelled and proved in Dafny

Megatron is a C++ framework of services that exchange events, on one node or across nodes. This project
models the parts of it that carry the most logic and proves what they are for:

* **Events that find their way back.** An event carries a route, a stack of hops. Nodes push hops as a
  request travels out and pop them as the reply travels back; sessions hold packets until a connection is
  up. `Rpc` gives the session handlers as functions on a state, `RpcService` the same handlers as a class
  that updates its maps in place, `RpcNet` a network of any number of nodes with connections that come up,
  carry packets both ways and break. `RpcRetrace` proves what holds in every reachable state of every run,
  `RpcHome` that a reply does come home while its connections hold and its packets are within the limits,
  `RpcOut` that it can go out and come home along a chain of nodes of any length, `RpcStall` and `RpcFits`
  what becomes of a packet over the limit. `RpcAccount` counts, from its inputs alone, what a node must have
  sent; `RpcEarly` follows a reply that is there before its socket is announced.
* **The bytes under it.** `PackedNumber`, `IoBuffer`, `TypedCodec`, `Routes`, `EventCodec`, `Dispatch` and
  `Oscar`: base-128 numbers, typed values and containers, routes, events, RPC packets, and the framing of
  packets on a byte stream under partial sends and arbitrary reads. `WireFormat` says what the bytes are,
  `Orders` what the orders of routes and keys mean.
* **Concurrency inside a node.** `ServiceStart` interleaves threads that ask for services; `EventQueue`
  interleaves producers, the worker and the shutdown of a single-threaded listener. `ServiceProgress` and
  `QueueProgress` prove that services do get started and events handled.
* **URLs.** `UrlText`, `Segments`, `UrlPath`, `UrlQuery`, `Url`, `UrlRoundTrip`, `UrlCanonical`, `UrlObject`: parsing,
  building and their round trips; `UrlShape`, `UrlChars`, `UrlPorts`: components, characters and ports beside
  RFC 3986; `UrlDots`: paths beside its section 5.2.4; `Decimals`: what the 32-bit numbers mean; `Ipv6Text`,
  `Ipv6Meaning`, `Ipv6Valid`, `Ipv6`, `Ipv6Value`: the text of an IPv6 address, its normal form and its 128 bits.
* **Fast forms of simple functions.** `CrcRegister`, `Crc16`, `Crc32`, `Crc64`, `CrcResidue`: table-driven
  checksums against the bit-serial register. `Sha1Spec`, `Sha1`, `Sha1Example`: the in-place implementation
  against FIPS 180-4. `Base64`, `Base64Decode`, `Base64Value`: two encoders and two decoders against section 4
  of RFC 4648.

Code that changes state is modelled as methods and classes with loops, each proved equal to a function;
what the code promises is proved about those functions. Concurrent code is a transition system whose steps
are the critical sections of the code. Input from outside (what a socket accepts or delivers, which thread
runs next, what a constructor returns, whether a plug-in is found) is a parameter or a choice of step.
Machine integers are written out: 64-bit truncation in the packed number, 32-bit counts of containers,
wrap-around of decimal numbers, of the base64 accumulators and of the SHA-1 length word.

Where the code and its comments or the standards it follows differ, the model follows the code:

* The bit-stream writer of packed numbers starts at bit 56 and so drops bit 63 (`PackedNumber.BitStreamDecodes`).
* The comment on CRC-64 names an initial inversion that the code does not make; it would change every checksum (`Crc64.StartMatters`).
* The accumulator decoder of base64 skips foreign characters, which section 3.3 of RFC 4648 leaves to the application.
* SHA-1 writes only the low word of the message length (`Sha1.PadsAsTheStandard`).
* Path normalization drops empty segments inside a path, and the slash behind a `..` segment at its end, where section 5.2.4 of RFC 3986 keeps both; when that makes a difference is `UrlDots.AgreesWithRfc`.
* The zero address written out becomes a single colon, where section 4.2 of RFC 5952 asks for two (`Ipv6Value.NormalizingKeepsTheValue`, `Ipv6.LongZeroIsLost`).
* An IPv6 text may have two colons that stand for no group at all, where section 2.2 of RFC 4291 wants at least one (`Ipv6Value.EmptyGap`).
* An IPv4 address inside an IPv6 address keeps its spelling, so one address can have several normal forms (`Ipv6Value.NormalFormIsUnique`, `Ipv6Value.OneAddressTwoForms`).
* Ports and the numbers of IPv4 addresses are read in 32 bits, so larger numbers pass that wrap into range (`Decimals.UintMeans`, `Decimals.LargePortIsTaken`).
* A frame larger than the limit stops the reader without closing the socket (`Oscar.ExtractFrames`, `RpcStall.OversizeIsNeverRead`).
* A late report about an old connection removes the session of a newer one to the same address (`Rpc.GoneTakesItsAddress`, `Rpc.LateReportTakesANewerSession`).

`dafny verify dfyconfig.toml` checks the whole project.

## Model

| member | source | states |
|---|---|---|
| RpcRetrace.RepliesRetraceTheirPath | modules/rpc/rpcService.cpp:92-220 | In every run, a reply in some inbox has been at services that are a beginning of its request's trail read backwards; if it has been at all of them it is with the original sender and carries the sender's own route |
| RpcHome.ReplyComesHome | main/CInstance.cpp:32-87 | For a trail of any length over any nodes: once the last service answers, and while the connections of the trail are up, hold nothing that makes their reader close them, and the packets of the answer are within the limits of their readers, there is a run that brings the answer to the first service, through all the others in reverse order, with the first one's route restored |
| RpcOut.OutAndHome | README.md:49-53 | From the start of a network, for a chain of services on different nodes of any length: there is one run that carries a request from the first along all of them to the last and brings the answer home to the first, if the packets are within the limits of their readers and the sender's route has no listener hop |
| RpcOut.Carry | modules/rpc/rpcService.cpp:378-418 | A request to an address without a session reaches the service in five steps: it is cached, the connection is made and reported at both ends, and the packet is flushed and read |
| RpcHome.OneLeg | modules/rpc/rpcService.cpp:262-295 | One leg of that way: passing the event by its last hop gets it to the inbox of the service before, locally or over the connection the hop names, behind everything queued there |
| RpcEarly.WaitingReplyIsDelivered | modules/rpc/rpcService.cpp:333-376 | In every state with an open connection that is not announced yet: announcing it puts the replies that wait for its socket on it, and if the client closes on none of the packets there and all are within its limit, reads bring the last of those replies to its service |
| RpcEarly.EarlyReplyComesHome | modules/rpc/rpcService.cpp:284-291 | For every network in which one node can send a request to another over a new connection: there is a run in which the request is answered before its socket is announced, the reply waits in passCache and on no connection, and the announcement and reads bring it home with the sender's route |
| RpcHome.Drain | modules/rpc/rpcService.cpp:147-220 | A queue of packets within the limit that the connector does not close on is read to its end in a run of reads, and what the last packet delivers is the last to arrive |
| RpcHome.LegsShrink | corelib/route_t.cpp:56-88 | For routes of fewer than 2^64 hops, a packet of the way back is never longer than an earlier one, because the route only loses hops |
| RpcHome.FirstLegDecides | modules/oscar/oscarService.cpp:92-97 | So all of them are within the limits if the first is within every limit |
| RpcHome.TooLongStalls | modules/oscar/oscarService.cpp:92-97 | A packet over the limit of its reader, passed to a connection that is up, is on the connection behind all that was pending, where the next two rows say what becomes of it |
| RpcStall.OversizeStays | modules/oscar/oscarService.cpp:92-97 | In every run that does not cut the connection, in either direction, a packet over the limit and everything queued behind it stay queued |
| RpcStall.OversizeIsNeverRead | modules/oscar/oscarService.cpp:92-97 | In every run, cuts and all, with a packet over the limit behind so many others, no more than those others are ever read from that direction of the connection |
| RpcFits.NeverDelivered | modules/oscar/oscarService.cpp:92-97 | At any time of any run, an answer whose packet for some leg is over the limit of the node at the end of that leg has not been delivered over that leg: what ReplyComesHome asks of the packets is needed |
| RpcStall.PassesLikeOscar | modules/oscar/oscarService.cpp:82-122 | The network lets a node read the packet in front exactly when Oscar takes it from the frames of all that is queued |
| RpcStall.ReadsAreOscarEvents | modules/rpc/rpcService.cpp:642-645 | A step of reading is enabled exactly when Oscar passes an event up; the first one is PacketOnConnector at the end that asked for the connection and PacketOnAcceptor at the other, it carries the packet in front, and what its handler answers is what the step does |
| RpcRetrace.RepliesStayOnTheirConnection | modules/rpc/rpcService.cpp:262-295 | In every run with connections dropping and reopening, a packet travelling to a client was addressed to the socket id of that very connection and of no other |
| RpcRetrace.CachedRepliesWait | modules/rpc/rpcService.cpp:284-291 | What waits in passCache under a socket id was addressed to that id on that node |
| RpcRetrace.RequestsReachTheirAddress | modules/rpc/rpcService.cpp:378-418 | A packet travelling to a server was sent to the address that server owns, by the node at the other end |
| RpcRetrace.DirectionsAreFixed | modules/rpc/rpcService.cpp:100-211 | Every packet travelling to an accepted socket has direction s, every one travelling to a connecting socket has direction p |
| RpcRetrace.StepKeeps | modules/rpc/rpcService.cpp:53-419 | Every step of the network, handlers and failures alike, keeps the invariant behind these results |
| RpcRetrace.RunKeeps | modules/rpc/rpcService.cpp:53-419 | The invariant holds in every state of every run from a start with empty nodes |
| RpcRetrace.RequestArrives | modules/rpc/rpcService.cpp:92-144 | What the acceptor makes of a request's bytes has the route of the request with the socket id and the service on top |
| RpcRetrace.ReplyArrives | modules/rpc/rpcService.cpp:147-220 | What the connector makes of a reply's bytes goes to the service before the hop that was popped |
| RpcRetrace.EstablishKeeps | main/CUtils.h:136-153 | A new connection keeps the invariant, in which no two accepted sockets of a node, whenever they were accepted, have the same id |
| Rpc.SessionsAreFifo | modules/rpc/rpcService.cpp:221-261 | After any inputs, for every live session the packets handed to Oscar followed by the cached ones are those submitted, in order, and a session with a socket has an empty cache |
| Rpc.NodeStepKeeps | modules/rpc/rpcService.cpp:53-91 | Every handler keeps that, however often a connection is reported |
| Rpc.AddSendInOrder | modules/rpc/rpcService.cpp:237-261 | Adding a packet sends it or caches it behind the others, and touches no other session |
| RpcAccount.RepliesAreAccountedFor | modules/rpc/rpcService.cpp:262-376 | Counted from the inputs alone, for every run from an empty node and every socket id: the packets that went out to it followed by those still in passCache are those passed to it, in order; all of them went out once the socket is announced and not lost, none before |
| RpcAccount.RequestsAreAccountedFor | modules/rpc/rpcService.cpp:378-418 | Counted from the inputs alone, from any state without a session for the address until its session ends: what went out and what is held are what was sent to it, in order; exactly one connection is asked for if anything was sent; all of it is out once the address is reached |
| RpcService.Service.OnSendPacket | modules/rpc/rpcService.cpp:378-418 | The maps, sessions and socket ids after the handler are those of the state function; a new session asks for one connection |
| RpcService.Service.OnPassPacket | modules/rpc/rpcService.cpp:262-295 | A packet for a known socket id goes to its session, any other to the end of passCache |
| RpcService.Service.OnAccepted | modules/rpc/rpcService.cpp:333-376 | The session of an accepted socket gets what waited in passCache for it, in order, and the cache entry goes |
| RpcService.Service.OnConnected | modules/rpc/rpcService.cpp:53-91 | The session of the address takes the socket and sends what it held, in order |
| RpcService.Service.OnGone | modules/rpc/rpcService.cpp:544-599 | A failed or broken connection removes the session of its address, whichever socket that session has |
| RpcService.Service.OnDisaccepted | modules/rpc/rpcService.cpp:600-628 | A lost accepted socket removes its session; what is in passCache stays |
| Rpc.GoneTakesItsAddress | modules/rpc/rpcService.cpp:544-599 | A session and its cache outlive the report of a lost connection if and only if that connection was to another address; accepted sockets and passCache are untouched |
| Rpc.DisacceptedTakesItsId | modules/rpc/rpcService.cpp:600-628 | The session of an accepted socket outlives the report of a lost one if and only if that is another socket; passCache is untouched |
| Rpc.LateReportTakesANewerSession | modules/rpc/rpcService.cpp:592-596 | A run from an empty node in which a late report about the first socket removes the session of the second, with a packet still cached |
| RpcService.Service.FlushOutCache | modules/rpc/rpcService.cpp:221-235 | Everything cached is sent in order and the cache is empty |
| RpcService.Service.AddSendPacket | modules/rpc/rpcService.cpp:237-261 | With a socket the packet is sent, without one it is cached last |
| RpcService.Service.GetNewSocketId | main/CUtils.h:143-149 | The next id is one more than the last, modulo 2^64 |
| RpcService.Service.FlushAll | modules/rpc/rpcService.cpp:522-543 | For some order that has each session once, what is sent is the caches of the sessions with a socket one after the other in that order, and those caches are empty afterwards |
| Dispatch.PassEvent | main/CInstance.cpp:32-87 | The last hop is popped and says where the event goes; an object handler's hop stays on |
| Dispatch.PassToMeans | main/CInstance.cpp:39-80 | Each of the five receivers goes with one kind of hop and the other way round, polled and threaded handlers apart; only handler hops stay on the route |
| Dispatch.SendEvent | main/CInstance.cpp:88-97 | The receiver is pushed, and passing would pop it again and find the receiver |
| PackedNumber.UnpackPack | corelib/ioBuffer.cpp:290-321 | Every 64-bit number, packed and followed by any bytes, is read back and leaves exactly those bytes |
| PackedNumber.PackShape | corelib/ioBuffer.cpp:290-321 | It takes 1 to 10 bytes, does not start with 0x80, and only its last byte is below 0x80 |
| WireFormat.PackIsBase128 | corelib/ioBuffer.cpp:290-321 | Each byte is the digit of its place in the shortest numeral to the base 128, with 128 added on all but the last |
| PackedNumber.StrictPrefixDoesNotDecode | corelib/ioBuffer.h:332-352 | No strict prefix of it is read as a number |
| PackedNumber.UnpackConsumes | corelib/ioBuffer.h:311-331 | A number that is read is below 2^64 and consumes at least one byte from the front |
| PackedNumber.BitStreamDecodes | corelib/_bitStream.cpp:497-524 | What the bit stream writes for n is read as n modulo 2^63 |
| PackedNumber.BitStreamAgrees | corelib/_bitStream.cpp:497-524 | It writes the same bytes as the byte buffer if and only if n is below 2^63 |
| IoBuffer.OutBuffer.PutPN | corelib/ioBuffer.cpp:290-321 | The nested loops append exactly the packed number |
| IoBuffer.InBuffer.GetPN | corelib/ioBuffer.h:332-352 | The loop reads the number in front and moves behind it, or fails at the end of the data |
| IoBuffer.OutBuffer.PutPSTR | corelib/ioBuffer.cpp:193-200 | Length, then bytes |
| IoBuffer.InBuffer.GetPSTR | corelib/ioBuffer.cpp:163-192 | Reads the string in front and moves behind it, or fails: at the end if the length is cut short, behind the length if there are fewer bytes than it says |
| IoBuffer.UnpackPackString | corelib/ioBuffer.cpp:163-200 | A packed string followed by any bytes is read back and leaves those bytes |
| IoBuffer.BitStreamPutPN | corelib/_bitStream.cpp:497-524 | The loops of the bit stream append the groups from bit 56 down |
| TypedCodec.DecodeEncode | corelib/ioBuffer.h:167-298 | For every nested schema of integers, bools, strings, vectors, lists, deques, sets, maps and pairs, decoding an encoded value followed by any tail gives the value and that tail |
| TypedCodec.VectorRoundTrip | corelib/ioBuffer.h:271-298 | For a sequence the round trip holds if and only if it has fewer than 2^32 items |
| TypedCodec.FromWireToWire | corelib/ioBuffer.h:91-96 | Integers of 8 to 64 bits, signed or not, survive sign extension to 64 bits and truncation |
| WireFormat.Truncated | corelib/ioBuffer.h:91-96 | Whatever word is read, the integer is in the range of its type and congruent to the word modulo 2 to its width |
| WireFormat.Ranges | corelib/ioBuffer.h:91-96 | The ranges of the eight types, in numbers |
| WireFormat.ValueBytes | corelib/ioBuffer.h:167-298 | The bytes of a map, a vector, a set, a bool, for any small number and any short text |
| TypedCodec.DecodeWellTyped | corelib/ioBuffer.h:224-298 | Whatever bytes are decoded, the value has the type of the schema, sets and maps are ordered without repetition, and what is left is an end of the bytes |
| TypedCodec.InsertSorted | corelib/ioBuffer.h:224-264 | Inserting into a set or map keeps it strictly ordered by key |
| TypedCodec.CmpTransitive | corelib/ioBuffer.h:199-216 | The order sets and maps are kept in is transitive on all nested values |
| TypedCodec.CmpTrichotomy | corelib/ioBuffer.h:199-216 | Of two values exactly one of less, equal, greater holds, and equal means the same value |
| Orders.LessMeans | corelib/ioBuffer.h:199-216 | Numbers are ordered by size, false before true, texts and containers by their first difference or as a prefix, pairs by the first half that differs |
| TypedCodec.Write | corelib/ioBuffer.h:167-221 | The writers append the encoding |
| TypedCodec.Read | corelib/ioBuffer.h:224-298 | The readers give what decoding gives and move behind it |
| Routes.UnpackPackRoute | corelib/route_t.cpp:220-326 | Unpacking a packed route into any route appends its hops and consumes its bytes if it has no listener hop, and fails if it has one |
| Routes.UnpackPackHop | corelib/route_t.cpp:56-88 | The same for one hop of any kind |
| WireFormat.HopIsItsNumber | corelib/route_t.h:58-67 | A hop starts with the number of its kind, 1 to 7, and ends with what it holds |
| Routes.PrecedesTrichotomy | corelib/route_t.cpp:327-448 | Of two routes exactly one of less, equal, greater holds |
| Routes.PrecedesTransitive | corelib/route_t.cpp:327-388 | The order on routes is transitive |
| Routes.RouteT.Less | corelib/route_t.cpp:327-388 | The loop computes that order |
| Orders.PrecedesMeans | corelib/route_t.cpp:327-388 | One route comes before another if and only if it is longer, or as long and greater at the first hop in which they differ |
| Routes.RouteT.Equal | corelib/route_t.cpp:389-448 | The loop decides equality |
| Routes.RouteT.PackTo | corelib/route_t.cpp:220-230 | Appends the packed route |
| Routes.RouteT.UnpackFrom | corelib/route_t.cpp:231-326 | Succeeds when the bytes are a route of known hops without a listener, and then appends the hops |
| Routes.RouteT.PushBack | corelib/route_t.h:105-115 | The hop is on top |
| Routes.RouteT.PopBack | corelib/route_t.h:116-123 | Takes off the top hop, or fails on an empty route |
| EventCodec.UnpackPackEvent | main/CUtils.cpp:1276-1353 | A packed event of a registered type gives back id, route and body, and is refused if its route has a listener hop |
| EventCodec.WriteEvent | main/CUtils.cpp:1346-1353 | Appends id, route and fields |
| EventCodec.ReadEvent | main/CUtils.cpp:1276-1345 | Reads id, route and the fields the id is registered with, or fails |
| EventCodec.UnpackPackPacket | modules/rpc/rpcService.cpp:100-211 | An RPC packet of either direction is read back, or refused if its route has a listener hop |
| WireFormat.RequestBytes | modules/rpc/rpcService.cpp:408-413 | The bytes of a request, for any small numbers: the letter s, the service, the event, one hop, of kind 1, the sender |
| WireFormat.ReplyBytes | modules/rpc/rpcService.cpp:262-295 | The bytes of a reply, for any small numbers: the letter p, the event, one hop, of kind 1, the service |
| WireFormat.HandlersDiffer | modules/rpc/rpcService.cpp:92-220 | On a socket with an address the two packet handlers differ if and only if the packet starts with a direction other than s and p, which the acceptor ignores and the connector closes on |
| Oscar.ExtractSplit | modules/oscar/oscarService.cpp:60-182 | On every byte stream, reading it in two pieces and stopping in between gives the same packets, rest and closing as reading it at once |
| Oscar.EveryRunDelivers | corelib/epoll_socket_info.cpp:163-232 | In every run of submitting payloads of any size, partially sending and reading any amounts, the packets emitted are a beginning of the payloads submitted, told from the steps, before the first over the limit; once everything has been read they are all of those, and the input buffer holds the frames of the others |
| Oscar.ExtractFrames | modules/oscar/oscarService.cpp:92-103 | From a stream of frames come exactly the payloads before the first over the limit, and the frames from there on stay; so nothing is left if and only if all are within the limit; the socket is not closed |
| Oscar.TakenShortens | modules/oscar/oscarService.cpp:82-122 | Each packet taken consumes its payload and at least two bytes more |
| Oscar.FrameIsTaken | modules/oscar/oscarService.cpp:220-233 | A frame followed by anything is taken whole, or refused when its payload is above the limit |
| WireFormat.FrameBytes | modules/oscar/oscarService.cpp:220-233 | The byte 1, the length of the payload, the payload |
| Oscar.ExtractSettles | modules/oscar/oscarService.cpp:66-169 | What is left after reading holds no packet |
| Oscar.BufferVerify | modules/oscar/bufferVerify.h:5-25 | True exactly when a frame can be taken under some limit |
| Oscar.Socket.OnStreamRead | modules/oscar/oscarService.cpp:60-182 | The loop passes one event for each packet of the buffer and the new bytes, in order: packet i as PacketOnConnector on a connected socket and as PacketOnAcceptor on an accepted one; it keeps the rest, and closes on a foreign start byte |
| Oscar.EventsMean | modules/oscar/oscarService.cpp:149-156 | The kind of an event is that of its socket, and it carries its packet |
| Oscar.Socket.SendPacketPlain | modules/oscar/oscarService.cpp:220-233 | The frame fits the array of payload size plus 0x100 and is appended to the output |
| Oscar.Socket.Send | corelib/epoll_socket_info.cpp:192-232 | What was sent and what is kept make up the buffer |
| Oscar.Socket.WriteAndClose | corelib/epoll_socket_info.cpp:173-184 | Appends and marks for closing after the last byte |
| Oscar.OBuf.PutPN | corelib/obuf.cpp:169-200 | Succeeds if and only if the packed number fits; otherwise the array is filled with its first bytes |
| Oscar.OBuf.PackBytes | corelib/obuf.cpp:22-43 | Writes the bytes if and only if they fit |
| Oscar.OBuf.Put8 | corelib/obuf.cpp:95-106 | Writes the byte if and only if it fits |
| ServiceStart.EveryoneGetsTheInstance | main/CInstance.cpp:161-255 | In every interleaving, a call for a service that gets a pointer gets the one object ever built for that id, not null, able to take events if one was forwarded, and published until deinitServices clears the container |
| ServiceStart.SamePointer | main/CInstance.cpp:161-199 | Two such calls for one id, at any two moments, before or after the container is cleared, get the same pointer |
| ServiceStart.BuiltAtMostOnce | main/CInstance.cpp:256-402 | In every interleaving, clearing the container included, at most one constructor call for an id ever returns |
| ServiceStart.StartedAtMostOnce | main/CInstance.cpp:380-400 | An instance is sent startService at most once; the next row says that it is sent |
| ServiceProgress.EveryInstanceIsStarted | main/CInstance.cpp:380-400 | In every interleaving, an instance that takes events has been sent startService, or the call that built it is still to send it, or the termination flag is set |
| ServiceProgress.CallsComeToAnEnd | main/CInstance.cpp:256-402 | In every state of every interleaving, as long as a call has not come to its end, it or the call that holds the mutex it waits for can go on, and whoever goes on has fewer of its at most fourteen steps left |
| ServiceProgress.OneCallAlone | main/CInstance.cpp:256-402 | What a first call that is left alone ends with, and the whole state then, whatever the constructor does: an object that takes events is built, published and sent startService and the call gets its pointer; in every other case the call throws, and without an object nothing is built |
| ServiceProgress.FirstCall | main/CInstance.cpp:380-400 | The first call for a service that listens ends with a pointer to the one object, startService sent to it once and its id published |
| ServiceProgress.NextCallAlone | main/CInstance.cpp:161-199 | A later call that is left alone gets the published pointer and changes nothing else; it throws if and only if an event is to go to an object that takes none |
| ServiceStart.ContainerOnlyGrows | main/CInstance.cpp:374-377 | Before deinitServices, a published entry is never removed or replaced |
| ServiceStart.MutualExclusion | main/CInstance.cpp:261-272 | Two calls inside the initialisation of one service are one call |
| ServiceStart.StepKeeps | main/CInstance.cpp:256-402 | Every step of every call, setting the termination flag and then clearing the container keep the invariant |
| ServiceStart.NotFoundNotBuilt | main/CInstance.cpp:273-345 | A call inside the initialisation that does not find its service published knows that it was never built, unless the container has been cleared |
| EventQueue.NothingLostBeforeShutdown | corelib/eventDeque.cpp:4-30 | In every interleaving before the shutdown empties the queue: handled, then the rest of the batch, then the queue, is exactly what was pushed |
| EventQueue.HandledInPushOrder | corelib/listenerBuffered1Thread.cpp:66-129 | At all times, across the shutdown too, the events handled are some of those pushed, in push order, none twice, none null; which ones do get handled is in the rows below |
| QueueProgress.EveryEventIsPushed | corelib/listenerBuffered1Thread.cpp:118-129 | In every interleaving, what has been pushed is told by the steps alone: the event of each call of listenToEvent that looked before the shutdown began, in the order of the pushing steps, and the null event of the shutdown |
| QueueProgress.WorkerStays | corelib/listenerBuffered1Thread.cpp:76-108 | In every run with the shutdown not begun and no null event pushed, the worker has not left |
| QueueProgress.WorkIsProgress | corelib/listenerBuffered1Thread.cpp:76-108 | With anything left to handle, each step of the worker lowers the measure of how far it is behind |
| QueueProgress.EverythingIsHandled | corelib/listenerBuffered1Thread.cpp:76-108 | From every such state, steps of the worker and the signals that are due, without waking for nothing, lead to a state in which the events handled are all those pushed, in order |
| QueueProgress.OnlyTheQueueIsDropped | corelib/listenerBuffered1Thread.cpp:9-28 | In every interleaving after the shutdown has cleared the queue, what has been handled, is in the batch or is queued is everything ever pushed except exactly what was queued at that moment |
| EventQueue.NeverStranded | corelib/eventDeque.cpp:12-30 | The worker never waits unwoken on a queue that holds something unless a signal is due |
| EventQueue.ShutdownCompletes | corelib/listenerBuffered1Thread.cpp:9-28 | When the shutdown joins the worker, the worker is not asleep, each of its steps brings its exit nearer and nobody else's step puts it off |
| EventQueue.RunKeeps | corelib/listenerBuffered1Thread.cpp:66-129 | Order and waking hold in every state of every run |
| UrlCanonical.BuiltTextIsCanonical | corelib/url.cpp:694-907 | For every text that is parsed and built again: the built text is no longer, is parsed to the same components but for a default port and, without a host, the kind of host, and is built from them to itself |
| UrlRoundTrip.ParseBuild | corelib/url.cpp:853-907 | Whatever components, of the form parsing leaves, are built to a text of at most 8000 bytes, parsing gives them back, but for a default port and, without a host, the kind of host |
| UrlCanonical.ParseIsWf | corelib/url.cpp:694-850 | Parsed components have a lower-case scheme and name, a port that is_port takes (see Decimals.PortMeans), a path in normal form |
| UrlCanonical.BuildIsNoLonger | corelib/url.cpp:853-907 | What is built from a parsed text is never longer than the text |
| UrlPath.NormalizeIsIdempotent | corelib/url.cpp:389-425 | Normalizing a path twice is normalizing it once |
| UrlPath.NormalizeShape | corelib/url.cpp:389-425 | A path stays rooted or not, and never comes to start with two slashes |
| UrlPath.NormalizeLeavesNoDots | corelib/url.cpp:389-425 | No dot segment is left, and an empty segment only behind a slash at the end |
| UrlPath.NormalizeKeepsNeat | corelib/url.cpp:389-425 | A path without dot segments and inner empty segments is left alone |
| UrlPath.DotMeansNothing | corelib/url.cpp:397-398 | A dot segment or an empty segment anywhere inside a path does not change its normal form |
| UrlPath.DotsTakeBack | corelib/url.cpp:399-404 | Nor does a name followed by two dots |
| UrlPath.NormalizeIsNoLonger | corelib/url.cpp:389-425 | Nor does the path get longer as it is written |
| UrlPath.NormalizePath | corelib/url.cpp:389-425 | The loops compute that normal form |
| UrlDots.AgreesWithRfc | corelib/url.cpp:389-425 | For every rooted path, normalizing gives what the steps of section 5.2.4 of RFC 3986 give if and only if: two dots at the end have at most one segment before them, or, where the path ends otherwise, counting the empty segments makes no difference to how many segments are left before its last one |
| UrlDots.RemoveOnSegments | corelib/url.cpp:389-425 | The steps of the RFC on the text are a walk over its segments |
| UrlDots.AgreesWithoutEmpty | corelib/url.cpp:406-410 | Without empty segments inside, the two differ exactly in two dots at the end with more than one segment before them |
| UrlDots.AgreesWithoutDots | corelib/url.cpp:396-398 | Without two dots, they differ exactly where there are empty segments inside |
| UrlDots.PathsThatAgree | corelib/url.cpp:389-425 | Paths on either side: /a/.. and /a//../../b agree, /a/b/.. and /a//b do not |
| UrlText.DecodeEncode | corelib/url.cpp:428-528 | Decoding gives back every byte string encoded as a component, a query key or a query value |
| UrlText.EncodeIsNoLonger | corelib/url.cpp:428-528 | Encoding a decoded component never makes it longer |
| UrlText.EncodedIsText | corelib/url.cpp:462-528 | An encoded component holds only characters that may stand in it |
| UrlText.DecodeText | corelib/url.cpp:428-459 | The loop decodes, or fails on a broken percent sign |
| UrlText.EncodeText | corelib/url.cpp:462-528 | The loop encodes |
| UrlText.FindFirstOf | corelib/url.cpp:105-111 | Finds the first of some characters |
| UrlText.AreChars | corelib/url.cpp:44-49 | Decides whether all characters are in a class |
| UrlChars.MasksAreGrammar | corelib/url.cpp:15-36 | The masks let through exactly what the grammar of RFC 3986 has in a host name, user info, path, query and fragment, for every byte |
| UrlChars.EncodedByteMeans | corelib/url.cpp:462-528 | Which bytes stand for themselves in a path, a key and a value; the others are a percent sign and two upper-case digits, a space in a query a plus sign |
| UrlQuery.ParseBuild | corelib/url.cpp:817-902 | Any list of entries with non-empty keys is recovered exactly from its text |
| UrlQuery.SemicolonIsAmpersand | corelib/url.cpp:820-835 | Semicolons separate entries exactly as ampersands do |
| UrlQuery.TextIsNoLonger | corelib/url.cpp:887-902 | A parsed query written again is not longer |
| UrlQuery.ParseText | corelib/url.cpp:817-836 | The loop reads the entries, or fails |
| UrlQuery.BuildText | corelib/url.cpp:887-902 | The loop writes the entries, or fails on an empty key |
| UrlObject.UrlObject.ParseUrl | corelib/url.cpp:694-850 | Sets all components as parsed, or leaves the object as it was |
| UrlObject.UrlObject.BuildUrl | corelib/url.cpp:853-907 | Reads the text first if that is still to be done, then replaces it by what the components build to |
| UrlObject.ParseText | corelib/url.cpp:694-850 | The code that cuts the text and reads its parts computes the parsing function |
| UrlObject.BuildText | corelib/url.cpp:853-907 | The code that writes the parts computes the building function, refusals included |
| UrlPorts.PortComesBack | corelib/url.cpp:868-870 | For every text that is read and built again: reading the result gives the same parts, and the same port unless the scheme is http and the port is the number 80, or https and 443, where it gives none |
| UrlPorts.UsualIsDefault | corelib/url.cpp:868-870 | The ports left out are told by their numbers, for every numeral |
| UrlShape.SplitJoins | corelib/url.cpp:694-850 | Every text is what section 5.3 of RFC 3986 makes of the components it is cut into, and none of them holds a character that would end it |
| UrlShape.JoinSplits | corelib/url.cpp:694-850 | Components of which none holds a character that would end it are found again, so there is no other way to cut a text |
| UrlChars.SampleIsWritten | corelib/url.cpp:853-907 | The text of a URL with every component, http://u@h:81/p?k=v&w#f, for any letters |
| UrlObject.IsUint | corelib/url.cpp:72-84 | Where a decimal number with 32-bit wrap-around ends, if it is there and not too large |
| Decimals.DigitsValueIsDecimal | corelib/url.cpp:72-84 | The loop of is_uint computes the decimal number modulo 2^32 |
| Decimals.UintMeans | corelib/url.cpp:72-84 | A whole text is taken for a number if and only if it is a numeral without leading zeros whose value modulo 2^32 is within the limit |
| Decimals.WithinLimit | corelib/url.cpp:72-84 | For a numeral, being taken and being within the limit are the same if and only if the value is below 2^32 or its remainder is over the limit; always for at most nine digits |
| Decimals.PortMeans | corelib/url.cpp:378-381 | A port is a numeral whose value modulo 2^32 is at most 65535 |
| Decimals.LargePortIsTaken | corelib/url.cpp:378-381 | 4294967376 is taken for a port |
| Decimals.NumbersMean | corelib/url.cpp:161-166 | An IPv4 address is accepted if and only if it is four numerals with dots between them, each at most 255 modulo 2^32 |
| Decimals.NumbersWithinLimit | corelib/url.cpp:161-166 | The numbers of an accepted address are all at most 255 if and only if none is 2^32 or more; always for at most nine digits each |
| Ipv6.NormalFormMeans | corelib/url.cpp:257-371 | For every accepted text, normalizing keeps the groups and the spelling of the IPv4 address if and only if it is not all zero groups, without an IPv4 address, written otherwise than by two colons; that becomes one colon, which is no address |
| Ipv6.LongZeroIsLost | corelib/url.cpp:350-355 | A concrete text that shows it: eight zeros |
| Ipv6.NormalFormIsFixed | corelib/url.cpp:257-371 | Otherwise the normal form is a text normalizing is meant for, and is left alone by it |
| Ipv6Value.NormalizingKeepsTheValue | corelib/url.cpp:257-371 | For every accepted text, normalizing keeps the 128-bit address, to which an IPv4 address contributes two words, if and only if the text is not the zero address in groups other than two colons (::0.0.0.0 is kept) |
| Ipv6Value.NormalFormIsUnique | corelib/url.cpp:257-371 | Two accepted texts have the same normal form if and only if they are texts of the same 128-bit address, their IPv4 addresses, if any, are spelled alike, and not just one of them is the zero address in groups |
| Ipv6Value.OneAddressTwoForms | corelib/url.cpp:289-296 | ::102:304 and ::1.2.3.4 are one address and have different normal forms |
| Ipv6Value.NormalFormIsPreferred | corelib/url.cpp:350-371 | The normal form is the text section 4 of RFC 5952 prefers, if and only if the text is not the zero address in groups |
| Ipv6Value.EmptyGap | corelib/url.cpp:207-249 | In an accepted text with a gap the two colons stand for no group at all if and only if it ends in an IPv4 address and has six groups |
| Ipv6Value.SixAndGapIsAccepted | corelib/url.cpp:220-222 | 1::2:3:4:5:6:1.2.3.4 is such a text |
| Ipv6.ValidIsSound | corelib/url.cpp:191-249 | Every accepted text is one that normalizing is meant for |
| Ipv6Meaning.FirstLongestRun | corelib/url.cpp:326-348 | The run written as two colons is a whole run of zeros, no stretch of zeros is longer, none as long comes before it |
| Ipv6Meaning.FormatMeans | corelib/url.cpp:350-371 | The preferred text of an address other than zero is a text of that address |
| Ipv6Text.HexRoundTrip | corelib/url.cpp:306-309 | A field is written in lower case without leading zeros and read back |
| Ipv6Valid.ValidIsLegal | corelib/url.cpp:207-249 | Every accepted text has the groups of an address: eight, or six and an IPv4 address, or fewer with one gap |
| Ipv6Valid.IsValidIpv6 | corelib/url.cpp:207-249 | The scan accepts exactly the texts of the recursive definition |
| Ipv6Valid.IsValidIpv4 | corelib/url.cpp:161-166 | Accepts exactly four numerals with dots between them, each at most 255 modulo 2^32 |
| Ipv6.Normalize | corelib/url.cpp:257-371 | On every text at all, splitting, decoding, expanding in place, searching and writing compute NormalText, refusals included, and on every text it is meant for the normal form |
| Ipv6.NormalTextMeans | corelib/url.cpp:257-371 | On the groups of an address NormalText is the normal form |
| Ipv6.Expand | corelib/url.cpp:312-324 | In place, the fields behind the gap move to the end and zeros take their place |
| Ipv6.FindRun | corelib/url.cpp:326-348 | The loops find the first longest run of zeros |
| Ipv6.WrittenIsEncoded | corelib/url.cpp:350-371 | What the code writes for a gap is the preferred text, but for the zero address |
| CrcRegister.ByteStep | corelib/__crc32.cpp:102-103 | Eight bits fed to the serial register are one look at a table indexed by the low byte and one shift by eight, for every polynomial |
| CrcRegister.StepsAreLinear | corelib/__crc32.cpp:48-92 | The register is linear over addition without carry |
| CrcRegister.BurstIsNoticed | corelib/__crc32.cpp:94-106 | For every register of 16, 32 or 64 bits whose polynomial has its top bit, bits that differ only within a stretch of the width of the register leave different registers |
| CrcRegister.BytesInARowAreNoticed | corelib/__crc32.cpp:94-106 | So do messages of one length that differ only within as many bytes in a row as the register has |
| CrcRegister.OneByteIsNoticed | corelib/__crc32.cpp:94-106 | So do messages of one length that differ in exactly one byte |
| Crc32.TableIsRight | corelib/__crc32.cpp:48-92 | Each of the 256 entries is what the serial register makes of its index in eight steps |
| Crc32.Crc | corelib/__crc32.cpp:94-106 | The loop computes the serial register between two inversions |
| Crc32.InParts | corelib/__crc32.cpp:94-106 | Feeding a message in two parts is feeding it whole, inversions and all |
| Crc32.WrongByteIsNoticed | corelib/__crc32.cpp:94-106 | One wrong byte changes the checksum |
| Crc32.BurstIsNoticed | corelib/__crc32.cpp:94-106 | So do wrong bytes within four bytes in a row |
| CrcResidue.Crc32OfItself | corelib/__crc32.cpp:94-106 | Every message with its own checksum behind it, lowest byte first, has the checksum 0x2144DF1C |
| CrcResidue.OwnRegister | corelib/__crc32.cpp:94-106 | For every polynomial with its top bit and every width, a message with its own register behind it leaves the register at zero |
| Crc16.TableIsRight | corelib/__crc16.cpp:5-38 | The same for the table of CRC-16 |
| Crc16.Crc | corelib/__crc16.cpp:41-52 | The loop computes the serial register |
| Crc16.InParts | corelib/__crc16.cpp:41-52 | Two parts are the whole |
| Crc16.WrongByteIsNoticed | corelib/__crc16.cpp:41-52 | One wrong byte changes the checksum |
| Crc16.BurstIsNoticed | corelib/__crc16.cpp:41-52 | So do wrong bytes within two bytes in a row |
| CrcResidue.Crc16OfItself | corelib/__crc16.cpp:41-52 | Every message with its own checksum behind it has the checksum zero |
| Crc64.TableIsRight | corelib/__crc64.cpp:42-171 | The same for the table of CRC-64 |
| Crc64.Crc | corelib/__crc64.cpp:173-182 | The loop computes the serial register |
| Crc64.InParts | corelib/__crc64.cpp:173-182 | Two parts are the whole |
| Crc64.WrongByteIsNoticed | corelib/__crc64.cpp:173-182 | One wrong byte changes the checksum |
| Crc64.BurstIsNoticed | corelib/__crc64.cpp:173-182 | So do wrong bytes within eight bytes in a row |
| CrcResidue.Crc64OfItself | corelib/__crc64.cpp:173-182 | So it has here |
| Crc64.StartMatters | corelib/__crc64.cpp:173-182 | No message has the same checksum from a register of zeros and from one of ones |
| Sha1.CodeIsSha1 | modules/http/sha1_1.hpp:127-184 | For every message below 2^29 bytes the digest is that of sections 5 and 6.1 of FIPS 180-4 |
| Sha1Example.DigestOfAbc | modules/http/sha1_1.hpp:127-184 | The digest of the message abc, through all eighty rounds, is the one the standard gives |
| Sha1.PadsAsTheStandard | modules/http/sha1_1.hpp:163-177 | The code pads a message as the standard does if and only if it is below 2^29 bytes |
| Sha1.Calc | modules/http/sha1_1.hpp:127-184 | Whole blocks, the tail with or without an extra block, and the output order: the first twenty bytes are the digest of the folded blocks, the others stay |
| Sha1.InnerHash | modules/http/sha1_1.hpp:59-115 | The five loops on the buffer in place are the compression of one block |
| Sha1.HashBlocks | modules/http/sha1_1.hpp:138-161 | The loop folds all complete blocks |
| Sha1.FillTail | modules/http/sha1_1.hpp:163-171 | Bytes or-ed into the cleared buffer are the words of the tail with its end bit |
| Sha1.Store | modules/http/sha1_1.hpp:179-183 | The five words come out highest byte first |
| Base64.AccumulatorEncode | main/CUtils.cpp:362-390 | The accumulator with 32-bit wrap-around writes the encoding of section 4 of RFC 4648 |
| Base64.BlockEncode | modules/http/base64.hpp:66-112 | So does the encoder of blocks: the two agree on every input |
| Base64Decode.AccumulatorDecode | main/CUtils.cpp:391-427 | Reads the letters up to a padding sign, over everything foreign |
| Base64Decode.BlockDecode | modules/http/base64.hpp:131-174 | Reads the letters up to the first other character |
| Base64Decode.DecodeEncode | main/CUtils.cpp:362-427 | Both readings of an encoded string give it back |
| Base64Decode.DecodeWithSpaces | main/CUtils.cpp:406-425 | The accumulator's does so with any foreign characters put in anywhere |
| Base64.OctetsSextets | modules/http/base64.hpp:66-112 | Groups of six bits give back the bytes |
| Base64Value.SameNumber | modules/http/base64.hpp:66-112 | For every input, the digits to the base 64 write the same number as the bytes to the base 256, but for the zero bits that fill the last group |
| Base64Value.TextOf | modules/http/base64.hpp:66-112 | Character i is the letter of digit i in the alphabet of RFC 4648, or an equals sign up to a length of four for every three bytes begun |

## Left out

- Runs of the RPC service past 2^63 socket ids, where the counter wraps and ids come again: all runs are over ids below that.
- Fairness: that a reply comes home and that events get handled is stated as the existence of a run that goes on from the state; other runs may cut a connection at any moment, and then the reply is lost, or never let the worker step.
- What deinitServices does beyond clearing the container: it deletes the objects, so that pointers handed out before are no longer to be used.
- Paths without a leading slash beside section 5.2.4 of RFC 3986: the comparison is for rooted paths.
- Lock-level interleavings inside one RPC handler: each handler is one atomic step.
- Bracketed hosts (IPv6 literals and IPvFuture) in whole URLs: parsing stops with a separate outcome there; the IPv6 text is modelled on its own.
- The setters of the URL object and its lazy flags beyond parsing and building.
- A producer that finds m_container set and loses it before pushing: the model lets it push to the queue it found, where the code would dereference a null pointer.
- The unguarded first look of initService at the service map is one atomic step.
- Sockets, epoll and kqueue, SSL, timers and thread creation: a send takes any prefix, a read brings any chunk, a connection may break at any time.
- Notifications to subscribers, address notifications and statistics in the RPC service; events that are not packed (constructors without a body on the wire).
- Event bodies that mention floating-point fields, which travel as decimal text.
- Session maps keyed by socket addresses use addresses with equality; the ordering of AF_UNIX addresses is not modelled.
- The null result of unpackEvent while the process terminates.
- Loading plug-ins: whether a constructor is found is a choice of the environment.
- put_bits and get_bits of the bit stream, and its growth.
- Telnet, databases, configuration, logging, WebSocket streams, HTTP parsing and the MIME table.
