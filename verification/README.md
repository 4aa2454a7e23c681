# The access side of the s-net gateway

The s-net gateway connects gateway clients, over TCP, with sensor networks behind HDLC daemons. This project models
its access side and proves what it promises:

- **Framing.** Two frame formats share one byte stream: octet stuffing in the manner of section 4.2 of RFC 1662
  (limited to 0x7E and 0x7D, without a checksum) and a twelve-bit length prefix. The upper nibble of a frame's first
  octet tells them apart.
- **The access protocol of one connection.** The first frame fixes the framing mode; commands are answered; a violation
  closes the connection.
- **Addresses, subscriptions and routing.** Every client leases an address from a pool, subscribes to services, has
  the source of its packets masqueraded, and is offered the packets of the HDLC daemons through a filter.

## How it is built

Pure modules hold the reference definitions and the theorems; classes have the form of the source and are proved against
these definitions.

| file | content |
|---|---|
| `EscapedFraming.dfy`, `LengthFraming.dfy` | the two codecs: encoding, decoder, exactness, termination; the frame classes |
| `FrameStream.dfy` | frames of both formats on one stream; the receiving half of the frame endpoint |
| `AccessProtocol.dfy` | the protocol of one connection over all traces; the protocol class, down to the octets it writes |
| `AddressPooling.dfy` | the pool, its ledger, high water, exact capacity, reuse order; the pool and lease classes |
| `AddressService.dfy`, `PublishSubscribe.dfy`, `SnetMessages.dfy` | the two services and the abstract messages |
| `GatewayModel.dfy` | the whole access side as one state machine, one step for each event of the io loop |
| `GatewayInvariants.dfy`, `GatewayRuns.dfy` | the lifecycle invariant and what holds of addresses over whole runs |
| `GatewayDelivery.dfy` | who gets which packet, routing separation, request and response |
| `GatewayHistory.dfy` | what a run means for one client: what it was sent, its protocol trace and its subscriptions |
| `GatewayServer.dfy`, `GatewayMain.dfy` | handlers, collection, routing entity and program as objects that refine the state machine |
| `WireRuns.dfy` | the gateway on octets: arbitrary interleavings of octet streams, down to what a client reads back |
| `GatewaySockets.dfy` | receivers and handlers together: the objects on octets refine the runs of `WireRuns.dfy` |

The main results are

- `GatewayDelivery.ReplyReturnsToRequester` and, on the sockets, `WireRuns.ReplyIsReadByRequester`: in every run a reply
  comes back to the client that asked and to nobody else;
- `GatewayHistory.LogIsWhatWasOwed`, `GatewayDelivery.UplinkIsWhatWasAdmitted` and `WireRuns.OctetsInOctetsOut`: over
  every run, exactly what each client and the HDLCd are sent, down to the octets a client writes and reads;
- `FrameStream.StreamsAreFrameSequences`: the accepted streams are exactly the encodings of frame sequences;
- `GatewayHistory.RegisteredIffCompliant` and, on the sockets, `WireRuns.ConnectedIffInOrder`: a connection ends only by
  its own client's conduct or the shutdown;
- `GatewayDelivery.UnicastIffPeakWithinCapacity` and `GatewayDelivery.UnicastWorksIff`: exactly when addresses do what
  they are for, over runs and in a state;
- `GatewayRuns.RunIsLedgerRun`, `GatewayRuns.OldestAddressFirst` and `GatewayRuns.ShutdownReturnsAll`: what becomes of
  the addresses.

The formats and numbers of the protocol are fixed octet by octet, apart from the definitions: `StuffingOnTheWire`,
`EscapesOnTheWire`, `HeaderOnTheWire`, `CommandsAreAnswered`, `OtherFrames`, `DataFramesCarry`, `ReplyCarriesAddress`,
`RequestsOnTheWire` and `UplinkStep`.

`GatewayMain.SnetGateway.Valid` ties the objects to these results: the object state is always the end of the model's run
over the events handled so far. `GatewaySockets.SocketGateway.Valid` does the same for runs on octets.

## Assumptions

- The classes `Frame` and `FrameEndpoint` are not part of this model's sources. The endpoint is taken to dispatch on the
  upper nibble of the first octet of each frame, to store exactly the octets a frame asks for before it calls the
  decoder, to go on until the frame is full or the decoder fails, to close the connection if the decoder fails or no
  decoder is registered (doc/protocol.md:130), to write frames to the socket in order while open, and to pass on nothing
  once it is closed. Its answer to a frame that it is given to send is taken to be whether it is open.
- `SnetServiceMessage` is not part of this model's sources either. It is a record of the fields that the gateway
  inspects; parsing and serialising are parameters. A default-constructed message has a source service id other than
  0xAE and 0xB0.
- The preconditions of the source: whatever is sent to a client fits a frame of the client's mode, which is asserted
  when the frame is created (below 4096 octets, with the two-octet prefix of a data frame when escaping:
  `AccessProtocol.Sendable`; `GatewayModel.FrameFits` and `GatewayModel.PacketFits` apply it to everything an event
  sends); an escaping-based frame that is read for a request id has at least two octets (`AccessProtocol.Readable`); a
  message that the address service takes for a request carries at least six payload octets (`GatewayModel.Answerable`).
  The codec itself is not restricted. The number of connections is not bounded: the 16-bit wrap-around of the address
  counter is modelled, and capacity is a condition of the theorems that need it.
- The two callbacks of the protocol are the last thing the calling branch does, so the protocol class returns what it
  would have called and the handler acts on it at once.
- Every event of the io loop is one step, as it is in the single-threaded loop of the program. Runs are over arbitrary
  sequences of events: one that cannot happen in its state (a frame on a closed connection, any event after the loop has
  ended, an input outside the preconditions above) is skipped. `GatewayModel.CanHappen` says which.

## Where the code and its documentation differ

doc/protocol.md:31-34 says that data sent by one client is never mirrored to another. The code does deliver a client's
packet to other clients if its destination is above 0x4000 and is not 0xFFFE. `GatewayDelivery.MirroredIff` gives
the exact condition, `GatewayDelivery.MirroringHappens` a run in which it happens, for every codec that has a packet
with such a destination.

doc/protocol.md:150-152 promises that replies to a client's unicast address reach that client only.
`AddressPooling.CapacityIsExact` and `GatewayRuns.AddressableIffPeakWithinCapacity` show that the address range holds for
at most 49135 clients at once; `GatewayDelivery.UnicastWorksIff` says exactly when unicast delivery works for a client,
also after the counter has wrapped around, and `GatewayDelivery.UnicastFailsBeyondCapacity` gives a run of 49136
connections in which it fails for the last client. Over runs, `GatewayDelivery.UnicastIffPeakWithinCapacity` says that
it works for everybody at all times if and only if at most 49135 clients are ever there at once.

## Model

| member | source | states |
|---|---|---|
| `EscapedFraming.EncodedSize` | src/GatewayAccessServer/GatewayAccessProtocol/GatewayAccessFrames/GatewayAccessFrameEscaped.h:63-72 | the counting loop's arithmetic: payload plus two delimiters plus one octet for each 0x7D or 0x7E, hence between n + 2 and 2n + 2 |
| `EscapedFraming.StuffingOnTheWire` | src/GatewayAccessServer/GatewayAccessProtocol/GatewayAccessFrames/GatewayAccessFrameEscaped.h:73-87 | the encoding octet by octet: 7E 7E when empty; every further octet goes in before the last 7E, 7D as 7D 5D, 7E as 7D 5E, any other as it is |
| `EscapedFraming.EscapesOnTheWire` | src/GatewayAccessServer/GatewayAccessProtocol/GatewayAccessFrames/GatewayAccessFrameEscaped.h:129-155 | behind 7D the decoder takes 5D for 7D and 5E for 7E as long as the payload is below the MTU, and refuses anything else |
| `EscapedFraming.FlagsDelimitOnly` | src/GatewayAccessServer/GatewayAccessProtocol/GatewayAccessFrames/GatewayAccessFrameEscaped.h:73-87 | 0x7E is the first and the last octet of an encoded frame and occurs nowhere else |
| `EscapedFraming.RoundTrip` | src/GatewayAccessServer/GatewayAccessProtocol/GatewayAccessFrames/GatewayAccessFrameEscaped.h:61-164 | every payload of up to 4095 octets is decoded as it was, and what follows the frame stays unread |
| `EscapedFraming.DecodingIsExact` | src/GatewayAccessServer/GatewayAccessProtocol/GatewayAccessFrames/GatewayAccessFrameEscaped.h:91-164 | a frame is completed if and only if the octets begin with the encoding of a payload within the MTU; re-encoding restores what was consumed |
| `EscapedFraming.Completion` | src/GatewayAccessServer/GatewayAccessProtocol/GatewayAccessFrames/GatewayAccessFrameEscaped.h:91-164 | a waiting decoder that has not read an escape octet behind a full payload has octets that complete a frame |
| `EscapedFraming.PrefixFree` | src/GatewayAccessServer/GatewayAccessProtocol/GatewayAccessFrames/GatewayAccessFrameEscaped.h:73-87 | no frame is the beginning of another one |
| `EscapedFraming.WaitingIsCompletable` | src/GatewayAccessServer/GatewayAccessProtocol/GatewayAccessFrames/GatewayAccessFrameEscaped.h:109-155 | a waiting decoder can still complete a frame if and only if it has not read an escape octet behind a full payload |
| `EscapedFraming.ErrorsAreHopeless` | src/GatewayAccessServer/GatewayAccessProtocol/GatewayAccessFrames/GatewayAccessFrameEscaped.h:95-150 | the decoder fails only on octets that no frame begins with |
| `EscapedFraming.StepProgress` | src/GatewayAccessServer/GatewayAccessProtocol/GatewayAccessFrames/GatewayAccessFrameEscaped.h:91-164 | every octet lowers a measure; a decoder that goes on asks for exactly one octet and holds at most 4095 |
| `EscapedFraming.DecoderTerminates` | src/GatewayAccessServer/GatewayAccessProtocol/GatewayAccessFrames/GatewayAccessFrameEscaped.h:91-164 | whatever arrives, a frame or an error is found within 8193 octets |
| `EscapedFraming.TerminationBoundIsTight` | src/GatewayAccessServer/GatewayAccessProtocol/GatewayAccessFrames/GatewayAccessFrameEscaped.h:114-150 | a stream of 8192 octets after which the decoder still waits |
| `EscapedFraming.GatewayAccessFrameEscaped.Create` | src/GatewayAccessServer/GatewayAccessProtocol/GatewayAccessFrames/GatewayAccessFrameEscaped.h:33-38 | an outgoing frame holds its payload |
| `EscapedFraming.GatewayAccessFrameEscaped.CreateDeserializedFrame` | src/GatewayAccessServer/GatewayAccessProtocol/GatewayAccessFrames/GatewayAccessFrameEscaped.h:40-45 | an incoming frame waits for one octet, the delimiter |
| `EscapedFraming.GatewayAccessFrameEscaped.Serialize` | src/GatewayAccessServer/GatewayAccessProtocol/GatewayAccessFrames/GatewayAccessFrameEscaped.h:61-88 | the appending loop builds the RFC 1662 encoding, and the capacity of the counting loop is its size |
| `EscapedFraming.GatewayAccessFrameEscaped.Deserialize` | src/GatewayAccessServer/GatewayAccessProtocol/GatewayAccessFrames/GatewayAccessFrameEscaped.h:91-164 | editing the buffer in place is one step of the reference decoder, errors included |
| `LengthFraming.SplitAndJoin` | src/GatewayAccessServer/GatewayAccessProtocol/GatewayAccessFrames/GatewayAccessFrameLength.h:64-83 | splitting a size of up to 4095 into the header and joining it again is exact; bit 7 is set and the tag kept |
| `LengthFraming.JoinAndSplit` | src/GatewayAccessServer/GatewayAccessProtocol/GatewayAccessFrames/GatewayAccessFrameLength.h:64-83 | joining two header octets and splitting the size again restores them |
| `LengthFraming.HeaderOnTheWire` | src/GatewayAccessServer/GatewayAccessProtocol/GatewayAccessFrames/GatewayAccessFrameLength.h:61-69 | the header octet by octet: tag 8 in the upper nibble, then the size in big-endian order, then the payload |
| `LengthFraming.RoundTrip` | src/GatewayAccessServer/GatewayAccessProtocol/GatewayAccessFrames/GatewayAccessFrameLength.h:61-107 | every payload of up to 4095 octets, the empty one included, is decoded after exactly size + 2 octets |
| `LengthFraming.TaggedRoundTrip` | src/GatewayAccessServer/GatewayAccessProtocol/GatewayAccessFrames/GatewayAccessFrameLength.h:72-107 | the same for frames with reserved bits set |
| `LengthFraming.DecodingIsExact` | src/GatewayAccessServer/GatewayAccessProtocol/GatewayAccessFrames/GatewayAccessFrameLength.h:72-107 | which octets complete a frame, which are an error, and that re-encoding restores them if and only if the upper nibble was 8 |
| `LengthFraming.Completion` | src/GatewayAccessServer/GatewayAccessProtocol/GatewayAccessFrames/GatewayAccessFrameLength.h:72-107 | a waiting decoder has octets that complete a frame, whatever the tag it has seen |
| `LengthFraming.GatewayAccessFrameLength.Create` | src/GatewayAccessServer/GatewayAccessProtocol/GatewayAccessFrames/GatewayAccessFrameLength.h:33-38 | an outgoing frame holds its payload |
| `LengthFraming.GatewayAccessFrameLength.CreateDeserializedFrame` | src/GatewayAccessServer/GatewayAccessProtocol/GatewayAccessFrames/GatewayAccessFrameLength.h:40-45 | an incoming frame waits for the two header octets |
| `LengthFraming.GatewayAccessFrameLength.Serialize` | src/GatewayAccessServer/GatewayAccessProtocol/GatewayAccessFrames/GatewayAccessFrameLength.h:61-69 | the masked 16-bit arithmetic yields the reference encoding |
| `LengthFraming.GatewayAccessFrameLength.Deserialize` | src/GatewayAccessServer/GatewayAccessProtocol/GatewayAccessFrames/GatewayAccessFrameLength.h:72-107 | handling a whole request at once is the last of the reference decoder's octet steps |
| `FrameStream.ListenConcat` | src/GatewayAccessServer/GatewayAccessProtocol/GatewayAccessProtocol.cpp:36-43 | how the stream is cut into reads does not matter |
| `FrameStream.Dispatch` | src/GatewayAccessServer/GatewayAccessProtocol/GatewayAccessProtocol.cpp:38-40 | the upper nibble chooses the decoder that reads the frame from its start; any other nibble takes the connection down |
| `FrameStream.UniqueDecoding` | src/GatewayAccessServer/GatewayAccessProtocol/GatewayAccessProtocol.cpp:38-40 | any sequence of frames of both formats is received as exactly that sequence, to the last octet and without a look beyond |
| `FrameStream.StreamsAreFrameSequences` | src/GatewayAccessServer/GatewayAccessProtocol/GatewayAccessProtocol.cpp:38-42 | a stream is accepted if and only if it encodes a frame sequence; re-encoding restores it; it begins such an encoding if and only if it was not refused and did not end in an escape octet behind a full payload |
| `FrameStream.FrameReceiver.ReceiveChunk` | src/GatewayAccessServer/GatewayAccessProtocol/GatewayAccessProtocol.cpp:38-42 | driving the frame objects over one read yields the frames of the reference reception |
| `AccessProtocol.ModeLatch` | src/GatewayAccessServer/GatewayAccessProtocol/GatewayAccessProtocol.cpp:57-171 | over every trace the mode is the format of the first frame received; nothing is sent before it or in another format; a frame of the other format is the last one and leaves the connection closed |
| `AccessProtocol.CommandsAreAnswered` | src/GatewayAccessServer/GatewayAccessProtocol/GatewayAccessProtocol.cpp:106-141 | for every escaping frame on an open connection: 01 00 is answered by 01 01 00 00, 01 10 by 01 11 00 00, 03 00 by 03 01 00 00 with its remaining octets delivered, and anything else closes with nothing sent |
| `AccessProtocol.OtherFrames` | src/GatewayAccessServer/GatewayAccessProtocol/GatewayAccessProtocol.cpp:142-171 | in length mode a payload is delivered and nothing answered; a frame of the other format closes the connection |
| `AccessProtocol.DataFramesCarry` | src/GatewayAccessServer/GatewayAccessProtocol/GatewayAccessProtocol.cpp:57-97 | nothing is sent without a mode or when closed; an escaping data frame carries the payload behind 03 02, a length frame the payload alone |
| `AccessProtocol.AcksMatchCommands` | src/GatewayAccessServer/GatewayAccessProtocol/GatewayAccessProtocol.cpp:112-137 | without the data frames, exactly the answers due to the received commands were sent, in order: the two octets of the command, the second raised by one, and two zeros; in length mode none |
| `AccessProtocol.GatewayAccessProtocol.constructor` | src/GatewayAccessServer/GatewayAccessProtocol/GatewayAccessProtocol.cpp:36-43 | a new connection is open, has no mode and has sent nothing |
| `AccessProtocol.GatewayAccessProtocol.SendFrame` | src/GatewayAccessServer/GatewayAccessProtocol/GatewayAccessProtocol.cpp:70-80 | what a peer decodes from the octets written grows by the frame, if the endpoint is open |
| `AccessProtocol.GatewayAccessProtocol.Send` | src/GatewayAccessServer/GatewayAccessProtocol/GatewayAccessProtocol.cpp:57-97 | a payload is dropped without a mode, sent as 0302 data when escaping, and as it is in length mode |
| `AccessProtocol.GatewayAccessProtocol.Close` | src/GatewayAccessServer/GatewayAccessProtocol/GatewayAccessProtocol.cpp:49-55 | the endpoint is closed and the owner told |
| `AccessProtocol.GatewayAccessProtocol.OnFrame` | src/GatewayAccessServer/GatewayAccessProtocol/GatewayAccessProtocol.cpp:99-171 | the new state and the upcall for every frame in every mode are those of the reference protocol |
| `AddressPooling.CapacityIsExact` | src/GatewayAccessServer/AddressService/AddressPool.cpp:27-37 | of the fresh addresses before a wrap-around, exactly the first 49135 are client addresses |
| `AddressPooling.BooksAlwaysBalance` | src/GatewayAccessServer/AddressService/AddressPool.cpp:31-49 | in every reachable state, wrapped or not, loans and reclaimed queue together are the addresses ever drawn, with multiplicity |
| `AddressPooling.HighWater` | src/GatewayAccessServer/AddressService/AddressPool.cpp:31-49 | the counter has advanced by the peak of simultaneous leases, however many came and went |
| `AddressPooling.NoAddressTwice` | src/GatewayAccessServer/AddressService/AddressPool.cpp:31-49 | up to 65536 addresses drawn, loans and queue are disjoint and free of duplicates |
| `AddressPooling.Partition` | src/GatewayAccessServer/AddressService/AddressPool.cpp:27-49 | before a wrap-around, loans and queue are exactly the interval from 0x4001 up to the counter |
| `AddressPooling.InRangeIffPeakWithinCapacity` | src/GatewayAccessServer/AddressService/AddressPool.cpp:31-44 | all leases of a run are client addresses if and only if at most 49135 are held at once |
| `AddressPooling.DistinctIffPeakWithinWordSize` | src/GatewayAccessServer/AddressService/AddressPool.cpp:31-44 | live leases stay distinct if and only if at most 65536 are held at once |
| `AddressPooling.OldestFirst` | src/GatewayAccessServer/AddressService/AddressPool.cpp:33-42 | the address at position k of the queue is handed out by exactly the (k+1)-th later lease, whatever returns happen |
| `AddressPooling.FreshOnlyWhenAllOnLoan` | src/GatewayAccessServer/AddressService/AddressPool.cpp:33-36 | a fresh address is drawn exactly when every earlier one is on loan |
| `AddressPooling.AddressPool.constructor` | src/GatewayAccessServer/AddressService/AddressPool.cpp:27-29 | a new pool starts at 0x4001 with an empty queue |
| `AddressPooling.AddressPool.ObtainAddressLease` | src/GatewayAccessServer/AddressService/AddressPool.cpp:31-44 | the lease and the new pool state are those of the reference allocator |
| `AddressPooling.AddressPool.ReleaseAddressLease` | src/GatewayAccessServer/AddressService/AddressPool.cpp:46-49 | the address joins the end of the queue |
| `AddressPooling.AddressLease.constructor` | src/GatewayAccessServer/AddressService/AddressLease.cpp:28-30 | a lease knows its pool and address |
| `AddressPooling.AddressLease.Destroy` | src/GatewayAccessServer/AddressService/AddressLease.cpp:32-35 | destroying a lease gives its address back |
| `AddressService.ReplyCarriesAddress` | src/GatewayAccessServer/AddressService/AddressService.cpp:27-47 | exactly the messages from 3FFF for 3FFC, service AF to AE, token 10, are answered; the ten octets carry the UUID and, in big-endian order at the end, the leased address |
| `AddressService.DocumentedExchange` | src/GatewayAccessServer/AddressService/AddressService.cpp:28-43 | the reply to the documented request is the documented reply (doc/protocol.md:178-184) |
| `PublishSubscribe.SubscriptionsAreHistory` | src/GatewayAccessServer/PublishSubscribeService/PublishSubscribeService.cpp:35-86 | an id is subscribed if and only if the last valid request with that id or FF as its payload had token 10 |
| `PublishSubscribe.RequestsOnTheWire` | src/GatewayAccessServer/PublishSubscribeService/PublishSubscribeService.cpp:35-86 | for every message and id: token 10 subscribes and is answered by 11, token 20 unsubscribes and is answered by 21, payload FF stands for all ids, any other message changes nothing and is not answered |
| `PublishSubscribe.RepliesAnswerRequests` | src/GatewayAccessServer/PublishSubscribeService/PublishSubscribeService.cpp:36-81 | exactly the valid requests are answered, to the asking client; invalid ones change nothing |
| `PublishSubscribe.PublishSubscribeService.constructor` | src/GatewayAccessServer/PublishSubscribeService/PublishSubscribeService.h:34-41 | a new client has no subscriptions |
| `PublishSubscribe.PublishSubscribeService.ProcessRequest` | src/GatewayAccessServer/PublishSubscribeService/PublishSubscribeService.cpp:35-82 | setting and resetting ids and building the reply is the reference processing |
| `GatewayInvariants.FanoutOffersOnce` | src/GatewayAccessServer/GatewayAccessServerHandlerCollection.cpp:62-66 | the send loop offers a packet to each listed handler once and to no other |
| `GatewayInvariants.UnregisterIsReturn` | src/GatewayAccessServer/GatewayAccessServerHandler.cpp:55-65 | closing a registered client removes exactly it from the list and returns exactly its lease |
| `GatewayInvariants.AcceptIsLease` | src/GatewayAccessServer/GatewayAccessServerHandlerCollection.cpp:68-83 | accepting a connection takes exactly one lease |
| `GatewayInvariants.CloseAllKeepsOrderly` | src/GatewayAccessServer/GatewayAccessServerHandlerCollection.cpp:43-52 | the shutdown loop ends with an empty list, and no address is lost |
| `GatewayInvariants.StepKeepsConsistent` | src/GatewayAccessServer/GatewayAccessServerHandler.cpp:48-118 | every event keeps the lifecycle invariant: listed, registered, leased and connected coincide, nobody is listed twice, the pool's books balance |
| `GatewayInvariants.RunIsConsistent` | src/GatewayAccessServer/GatewayAccessServerHandler.cpp:48-118 | the lifecycle invariant holds in every state of every run |
| `GatewayRuns.DrawnIsPeak` | src/GatewayAccessServer/AddressService/AddressPool.cpp:31-49 | over every run of the gateway the pool has drawn as many addresses as clients were ever registered at once |
| `GatewayRuns.PeakIsHighWater` | src/GatewayAccessServer/AddressService/AddressPool.cpp:31-49 | the counter is where that peak has taken it, and loans and queue are the addresses drawn, with multiplicity |
| `GatewayRuns.AddressableIffPeakWithinCapacity` | src/GatewayAccessServer/GatewayAccessServerHandler.cpp:69-72 | all clients of a run hold client addresses at all times if and only if at most 49135 are ever registered at once |
| `GatewayRuns.Connections` | src/GatewayAccessServer/GatewayAccessServerHandlerCollection.cpp:68-83 | any number n of connections is a run with peak n, in which the last client holds the n-th fresh address and none is reclaimed |
| `GatewayRuns.LeasesAreUnique` | src/GatewayAccessServer/AddressService/AddressPool.cpp:31-49 | as long as 65536 addresses have sufficed, no two registered clients share an address and none holds a reclaimed one |
| `GatewayRuns.AddressesInEveryRun` | src/GatewayAccessServer/AddressService/AddressPool.cpp:31-49 | in every run within capacity: client addresses, pairwise distinct, and with the reclaimed queue a partition of the interval up to the counter |
| `GatewayRuns.RunEvolves` | src/GatewayAccessServer/GatewayAccessServerHandler.cpp:55-65 | while a client stays registered it keeps its address and its mode; once closed it never comes back; logs only grow |
| `GatewayRuns.StepKeepsUnlessGone` | doc/protocol.md:38-40 | in one event, a registered client stays so unless its peer closes, its own frame breaks the protocol, or the gateway stops |
| `GatewayRuns.RegisteredIffStays` | doc/protocol.md:38-40 | over every run, a client is still registered if and only if none of these has happened: no packet and no other client ends a connection |
| `GatewayRuns.CloseIsIdempotent` | src/GatewayAccessServer/GatewayAccessServerHandler.cpp:55-65 | closing again changes nothing, so a lease is given back once |
| `GatewayRuns.ShutdownReturnsAll` | src/GatewayAccessServer/GatewayAccessServerHandlerCollection.cpp:43-52 | after a shutdown nobody is registered, the addresses on loan have joined the queue in the order of the list, and the queue is a permutation of all addresses ever issued |
| `GatewayRuns.RunIsLedgerRun` | src/GatewayAccessServer/AddressService/AddressPool.cpp:31-49 | every run of the gateway is a legal sequence of leases and returns of the ledger, with one lease for each connection |
| `GatewayRuns.OldestAddressFirst` | src/GatewayAccessServer/AddressService/AddressPool.cpp:33-42 | over every run the address at position k of the reclaimed queue goes to the (k+1)-th client that connects from then on |
| `GatewayDelivery.DeliverySet` | src/Routing/Routing.cpp:43-86 | a packet goes to one side at most; on the client side exactly the leaseholder, or the subscribers, get it, each in one frame of its mode that carries its serialisation (behind 03 02 when escaping) if it fits, and nothing else changes |
| `GatewayDelivery.OneAddressee` | src/GatewayAccessServer/GatewayAccessServerHandler.cpp:67-83 | a packet for a client address passes the filter of one client at most |
| `GatewayDelivery.ClientPacketFate` | src/GatewayAccessServer/GatewayAccessServerHandler.cpp:85-118 | what a client's packet can do, by destination: packets for services and HDLCd are not noticed by other clients, the source is the lease or 0xFFFE, no other field but the ARQ flag changes |
| `GatewayDelivery.UplinkStep` | src/Routing/Routing.cpp:43-86 | which packets leave: of clients those below 4000 other than 3FFC and those for FFFE, with source FFFE if they had it and the lease otherwise; of the HDLCd those below 4000 other than 3FFC |
| `GatewayDelivery.MirroredIff` | doc/protocol.md:31-34 | exactly when another client gets a copy of a client's packet |
| `GatewayDelivery.MirroringHappens` | src/Routing/Routing.cpp:73-86 | for every codec with a packet for 0x4002 that fits a frame: a run of two clients after which the first has it mirrored to the second |
| `GatewayDelivery.UnicastWorksIff` | doc/protocol.md:150-152 | exactly when every packet for a client's address reaches this client and no other, in every state, shared addresses included |
| `GatewayDelivery.UnicastWorksBeforeOverflow` | doc/protocol.md:150-152 | as long as 65536 addresses have sufficed, holding a client address is enough |
| `GatewayDelivery.UnicastFailsBeyondCapacity` | doc/protocol.md:150-152 | for every configuration, a run of 49136 connections in which the last client is given 0xFFF0 and unicast replies to it do not work |
| `GatewayDelivery.UnicastIffPeakWithinCapacity` | doc/protocol.md:150-152 | unicast replies work for every registered client at all times of a run if and only if at most 49135 are ever registered at once |
| `GatewayDelivery.UplinkIsWhatWasAdmitted` | src/Routing/Routing.cpp:43-86 | over every run the packets for the HDLCd are, in order, exactly the admitted ones under their proper sources |
| `GatewayDelivery.PacketReachesItsClient` | src/GatewayAccessServer/GatewayAccessServerHandler.cpp:67-83 | a packet that fits a frame of the registered client it is addressed to adds its serialisation, as one frame of the mode of the client and behind 03 02 when escaping, to its log and changes nobody else, and it need fit nobody else |
| `GatewayDelivery.RequestCarriesLease` | src/GatewayAccessServer/GatewayAccessServerHandler.cpp:110-116 | a packet leaves under the client's own lease or the wired address, and the client is registered and has a mode by then |
| `GatewayDelivery.ReplyReturnsToRequester` | src/GatewayAccessServer/GatewayAccessServerHandler.cpp:67-118 | over every run, as long as 65536 addresses have sufficed: a reply to a masqueraded client address reaches the client that asked, serialised into one frame of its format, and nobody else, whatever happens in between but the end of its connection |
| `GatewayHistory.AckComesFirst` | src/GatewayAccessServer/GatewayAccessProtocol/GatewayAccessProtocol.cpp:123-133 | a 0301 is sent before anything its own payload causes, which is at most one data frame, and that is the one owed |
| `GatewayHistory.AddressQueryAnswered` | src/GatewayAccessServer/GatewayAccessServerHandler.cpp:89-97 | an address query is answered with the service's reply, in one frame to the asking client, carrying the address it holds and goes on holding |
| `GatewayHistory.AddressQueriesAgree` | doc/protocol.md:157-159 | two queries of one client at any two points of a run are answered with the same address |
| `GatewayHistory.SubscriptionAnswered` | src/GatewayAccessServer/GatewayAccessServerHandler.cpp:99-108 | exactly the valid subscription requests are answered, in one frame to the asking client, with the service's reply, at the address it holds, naming the same id |
| `GatewayHistory.StepLogs` | src/GatewayAccessServer/GatewayAccessServerHandler.cpp:67-118 | what an event adds to the log of each client: the answer to its own command, then one frame for the service reply or the packet addressed to it |
| `GatewayHistory.LogIsWhatWasOwed` | src/GatewayAccessServer/GatewayAccessServerHandler.cpp:67-118 | over every run each client was sent, in order, exactly the answers, service replies and packets it was owed |
| `GatewayHistory.DataReceived` | src/GatewayAccessServer/GatewayAccessServerHandler.cpp:67-118 | over every run the data frames of a client are, in order, its service replies and the packets of which it was an addressee |
| `GatewayHistory.ConnectionIsTrace` | src/GatewayAccessServer/GatewayAccessServerHandler.cpp:43-45 | in every run, every client's connection has gone through a trace of the access protocol |
| `GatewayHistory.ClientsAreServedInTheirFormat` | doc/protocol.md:131-134 | in every run, for every client: mode latch, nothing sent before the first frame, acknowledgements match commands |
| `GatewayHistory.RegisteredIffCompliant` | doc/protocol.md:38-40 | in every run a connection is there if and only if its client has connected, was not closed by its peer, has only had frames of one format and known commands handled, and the gateway was not stopped |
| `GatewayHistory.SubscribedIffLastAskedFor` | src/GatewayAccessServer/GatewayAccessServerHandler.cpp:99-108 | in every run a client is subscribed to an id if and only if its last request naming that id was a subscribe request |
| `GatewayServer.HdlcdClientHandlerCollection.Send` | src/HdlcdClient/HdlcdClientHandlerCollection.cpp:53-57 | the packet is logged as handed to the HDLCd side |
| `GatewayServer.Routing.RouteSnetPacket` | src/Routing/Routing.cpp:43-71 | the objects take the model's routing step |
| `GatewayServer.HdlcdClientHandler.OnData` | src/HdlcdClient/HdlcdClientHandler.cpp:81-86 | a packet of an HDLC daemon is parsed and routed, or ignored |
| `GatewayServer.GatewayAccessServerHandler.constructor` | src/GatewayAccessServer/GatewayAccessServerHandler.cpp:32-46 | a new handler holds its lease and is not registered |
| `GatewayServer.GatewayAccessServerHandler.Start` | src/GatewayAccessServer/GatewayAccessServerHandler.cpp:48-53 | the handler is registered and joins the list |
| `GatewayServer.GatewayAccessServerHandler.Close` | src/GatewayAccessServer/GatewayAccessServerHandler.cpp:55-65 | lease, list and registration change as in the model; a second close does nothing |
| `GatewayServer.GatewayAccessServerHandler.Send` | src/GatewayAccessServer/GatewayAccessServerHandler.cpp:67-83 | the filter decides and what passes is sent; the result is true if and only if it passed and the client is connected or has no mode yet |
| `GatewayServer.GatewayAccessServerHandler.OnPayload` | src/GatewayAccessServer/GatewayAccessServerHandler.cpp:85-118 | interception by the services, masquerading and routing are the model's step |
| `GatewayServer.GatewayAccessServerHandler.OnFrame` | src/GatewayAccessServer/GatewayAccessServerHandler.cpp:43-45 | a frame with its upcall is the model's step |
| `GatewayServer.GatewayAccessServerHandler.OnClosed` | src/GatewayAccessServer/GatewayAccessProtocol/GatewayAccessProtocol.cpp:173-175 | the end of a connection is the model's close |
| `GatewayServer.GatewayAccessServerHandlerCollection.constructor` | src/GatewayAccessServer/GatewayAccessServerHandlerCollection.cpp:31-33 | a new collection has a new pool and no handlers |
| `GatewayServer.GatewayAccessServerHandlerCollection.Initialize` | src/GatewayAccessServer/GatewayAccessServerHandlerCollection.cpp:35-41 | the initial state of the model |
| `GatewayServer.GatewayAccessServerHandlerCollection.RegisterGatewayAccessServerHandler` | src/GatewayAccessServer/GatewayAccessServerHandlerCollection.cpp:54-56 | the handler is appended to the list |
| `GatewayServer.GatewayAccessServerHandlerCollection.DeregisterGatewayAccessServerHandler` | src/GatewayAccessServer/GatewayAccessServerHandlerCollection.cpp:58-60 | every occurrence of the handler leaves the list |
| `GatewayServer.GatewayAccessServerHandlerCollection.Send` | src/GatewayAccessServer/GatewayAccessServerHandlerCollection.cpp:62-66 | the loop is the model's offer to the listed handlers |
| `GatewayServer.GatewayAccessServerHandlerCollection.DoAccept` | src/GatewayAccessServer/GatewayAccessServerHandlerCollection.cpp:68-83 | accepting is the model's step: one lease, one handler, last in the list |
| `GatewayServer.GatewayAccessServerHandlerCollection.SystemShutdown` | src/GatewayAccessServer/GatewayAccessServerHandlerCollection.cpp:43-52 | the loop over the shrinking list terminates in the model's shutdown |
| `GatewayMain.SnetGateway.constructor` | src/main-snet-gateway.cpp:87-94 | the wired components are in the model's initial state |
| `GatewayMain.SnetGateway.OnConnected` | src/GatewayAccessServer/GatewayAccessServerHandlerCollection.cpp:68-83 | the objects stay at the end of the model's run, extended by this event |
| `GatewayMain.SnetGateway.OnFrameFrom` | src/GatewayAccessServer/GatewayAccessProtocol/GatewayAccessProtocol.cpp:99-171 | likewise for a frame of a client |
| `GatewayMain.SnetGateway.OnPacketFromHdlcd` | src/HdlcdClient/HdlcdClientHandler.cpp:81-86 | likewise for a packet of an HDLC daemon |
| `GatewayMain.SnetGateway.OnDisconnected` | src/GatewayAccessServer/GatewayAccessProtocol/GatewayAccessProtocol.cpp:173-175 | likewise for the end of a connection, repeated or not |
| `GatewayMain.SnetGateway.OnStopped` | src/main-snet-gateway.cpp:109-115 | likewise for the shutdown |
| `WireRuns.ReceptionIsListening` | src/GatewayAccessServer/GatewayAccessProtocol/GatewayAccessProtocol.cpp:36-43 | which frames a client's octets have led to depends on these octets alone, however they are mixed with those of others |
| `WireRuns.OctetsInOctetsOut` | doc/protocol.md:129-134 | whatever octets a client writes: the frames handled for it are those its octets decode to, and what it reads decodes to exactly what it is owed, in the format of its first frame, the acknowledgements matching its commands |
| `WireRuns.ServedOverTheWire` | doc/protocol.md:129-134 | the same for a client that wrote a sequence of frames back to back: exactly these are handled |
| `WireRuns.ConnectedIffInOrder` | doc/protocol.md:129-134 | in every run on octets a connection is there if and only if the gateway was not stopped, its client has not closed it, and the client's octets were not refused by the decoders and gave frames of one format and known commands only |
| `WireRuns.ReplyIsReadByRequester` | doc/protocol.md:150-154 | on the sockets: a reply to the source of a packet that an octet completed adds one encoded frame, with the serialised reply in it, to what this client reads, and nothing to what the others read |
| `GatewaySockets.Endpoints.Attach` | src/GatewayAccessServer/GatewayAccessProtocol/GatewayAccessProtocol.cpp:36-43 | a new connection has a receiver of its own, between two frames; the others are not disturbed |
| `GatewaySockets.Endpoints.ReceiveOctet` | src/GatewayAccessServer/GatewayAccessProtocol/GatewayAccessProtocol.cpp:36-43 | an octet moves the reception of its own client as the reference does, and nobody else's |
| `GatewaySockets.SocketGateway.constructor` | src/main-snet-gateway.cpp:87-94 | the program with no sockets is at the start of a run on octets |
| `GatewaySockets.SocketGateway.OnConnect` | src/GatewayAccessServer/GatewayAccessServerHandlerCollection.cpp:68-83 | the objects stay at the end of the run on octets, extended by this event |
| `GatewaySockets.SocketGateway.OnOctet` | src/GatewayAccessServer/GatewayAccessProtocol/GatewayAccessProtocol.cpp:36-47 | likewise for an octet: the receiver takes it, and a completed frame or a failed decoder reaches the handler |
| `GatewaySockets.SocketGateway.OnHangup` | src/GatewayAccessServer/GatewayAccessProtocol/GatewayAccessProtocol.cpp:173-175 | likewise for a connection closed by its peer |
| `GatewaySockets.SocketGateway.OnPacketFromHdlcd` | src/HdlcdClient/HdlcdClientHandler.cpp:81-86 | likewise for a packet of an HDLC daemon |
| `GatewaySockets.SocketGateway.OnStop` | src/main-snet-gateway.cpp:109-115 | likewise for the shutdown of the handlers |

## Left out

- The HDLC daemon side (resolver, reconnect timers, the fan-out over daemons): a log of outgoing packets and an event for incoming ones.
- Sockets, acceptor, posted callbacks, send-done callbacks and congestion: accepting, reading and closing are atomic steps.
- The byte layout and the tracing of s-net service messages: messages are records, the codec is a parameter.
- Shared-pointer counting: a lease is owned by its handler and destroyed when the handler drops it.
- The bit set of the publish / subscribe service is a set of ids.
- Frames of 4096 octets and more, escaping-based commands of fewer than two octets and address requests of fewer than six payload octets: the source asserts against the first and reads out of bounds on the others.
- GatewayServer.HdlcdClientHandlerCollection.Send: the loop over the daemon clients and the wrapping into an HDLCd packet are one entry of a log, because the daemon side is not part of this model.
- GatewayMain.SnetGateway.OnStopped: the shutdowns of the HDLCd collection and of the routing entity drop pointers that nothing uses any more and are not modelled.
- Command line, signals and build files.
