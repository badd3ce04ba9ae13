# Protocol engines of SimpleSocket, modelled and proved in Dafny

The project models the protocol code of the SimpleSocket C++ library and proves what that code promises:
the WebSocket frame engine and its close handshake, the accept key with its unrolled SHA-1, the
shared-memory channel, the MQTT broker and client, the adapter that runs MQTT over WebSocket messages, the
HTTP body decoder, and the Modbus TCP client and server. `dafny verify dfyconfig.toml` checks it.

How the source maps to Dafny:

- The transport (`Transport.dfy`) is a byte stream. A read hands over an arbitrary non-empty piece that fits
  the buffer, so what is proved about a loop over reads holds for every way the stream is cut. A write is
  all or nothing, and which writes succeed is an arbitrary input.
- Loops and objects that change state are methods and classes. Each is proved against a function of its
  inputs, and the promises of the library are lemmas about these functions.
- Formats that two ends share are also stated octet by octet in plain numbers, so that a slip made at both ends
  would show.
- Threads are transition systems: a step is one atomic action of one thread (a mutex-protected region, a
  semaphore operation, the copy of one byte), and the results hold in every state of every run.
- Octets are integers from 0 to 255 in the protocol modules and bit vectors in SHA-1 and base64. Integer
  widths of the source (64-bit sizes, 16-bit lengths, 8-bit counts) are written out where they can wrap.

Where the code does not keep a promise the model follows the code, states exactly when the promise holds,
and gives an input on which it fails:

- A frame that announces a payload within 14 octets of 2^64 passes the length check too early
  (`WebSocketFrame.OverflowExactly`); ten bytes are enough (`WebSocketFrame.OverflowExists`). Chunking
  independence holds for every stream; one with such a frame ends in the status `Undefined`, where the code
  leaves defined behaviour (`WebSocketListen.UndefinedReached`).
- A chunk size that makes offset + size + 2 wrap around passes the length check
  (`HttpBody.OverrunExactly`, `HttpBody.OverrunExists`).
- A remaining length beyond 268435455 loses its high groups (`MqttCodec.LengthRoundTrip`), a topic beyond
  65535 bytes its high length bits (`MqttCodec.PublishParses`).
- A Modbus request that the stream cuts behind its header is executed all the same, filled up with the
  bytes of an earlier request (`ModbusServer.CutFrameExactly`, `ModbusServer.StaleRequestWrites`).
- A Modbus write of more than 32764 registers wraps the length field, and its values can be executed as
  requests (`ModbusServer.LongWriteHarmlessExactly`, `ModbusServer.WrappedWrite`).
- The Modbus client takes one read of at most 255 bytes per call and never compares transaction ids. As long
  as every reply fits one read and arrives whole in it, all answers are right
  (`ModbusSession.SessionInStep`); with any byte left unread they cannot be relied on
  (`ModbusSession.RightExactlyInStep`). A read of 124 registers leaves two bytes
  (`ModbusSession.TwoBytesLeft`), and then a read returns 770 whatever the register holds
  (`ModbusSession.LeftoverIsTakenForValue`), or another register (`ModbusSession.OtherRegister`), or a write
  that is refused counts as confirmed (`ModbusSession.OtherConfirmation`).
- An empty WebSocket message makes a read of the MQTT adapter return 0, which `readExact` takes for the end
  though bytes are queued (`MessageQueue.ExactSucceedsExactly`, `MessageQueue.EmptyMessageFails`).
- The reply to a write of several registers carries the function code in place of the unit id, and an
  exception reply has no header; the client's verdicts are proved on these replies.
- One failed write during a publish erases the topic for all its subscribers; the broker's registry results
  carry this as the set `lost`.

## Model

| member | source | states |
|---|---|---|
| WebSocketFrame.BuildFrame | src/simple_socket/ws/WebSocketConnection.hpp:123-159 | the printed frame: FIN and opcode, the shortest of the three length forms, the mask bit and key for a client, the masked payload |
| WebSocketFrame.LengthOctets | src/simple_socket/ws/WebSocketConnection.hpp:140-141 | the eight shifted octets are the 64-bit big-endian length |
| WebSocketFrame.MaskedCopy | src/simple_socket/ws/WebSocketConnection.hpp:151-157 | the body is the payload, octet i combined with octet i mod 4 of the key when masking |
| WebSocketFrame.ApplyMaskInvolutive | src/simple_socket/ws/WebSocketConnection.hpp:153-157 | masking twice with one key gives every payload back |
| WebSocketFrame.HeaderRoundTrip | src/simple_socket/ws/WebSocketConnection.hpp:193-226 | for every length below 2^63 the parser reads FIN, opcode, mask bit, header size and length off a printed header |
| WebSocketFrame.FrameRoundTrip | src/simple_socket/ws/WebSocketConnection.hpp:123-246 | the opposite role parses a printed frame, followed by any bytes, to the same frame and takes exactly its bytes |
| WebSocketWire.FrameOnWire | src/simple_socket/ws/WebSocketConnection.hpp:123-159 | the printed frame octet by octet: 128 for FIN plus the opcode, the mask bit, the three length forms with the length as a number, the key before the payload, payload octet i combined with key octet i mod 4 |
| WebSocketWire.FirstOctet | src/simple_socket/ws/WebSocketConnection.hpp:161-176 | text, binary, close and pong frames begin with 0x81, 0x82, 0x88 and 0x8A |
| WebSocketWire.OpcodesReceived | src/simple_socket/ws/WebSocketConnection.hpp:248-309 | what each opcode number does when no message is unfinished |
| Bytes.XorAt | src/simple_socket/ws/WebSocketConnection.hpp:155 | masking changes exactly the bits that are set in the key octet |
| WebSocketFrame.DecideStable | src/simple_socket/ws/WebSocketConnection.hpp:193-246 | once a prefix is decided (frame, wrong masking, overflow), no later byte changes the decision |
| WebSocketFrame.OverflowExactly | src/simple_socket/ws/WebSocketConnection.hpp:228-229 | without wrap-around a frame is accepted if and only if all its bytes are there; the 64-bit size wraps only for lengths within 14 of 2^64, and then too few bytes pass |
| WebSocketFrame.OverflowExists | src/simple_socket/ws/WebSocketConnection.hpp:228-229 | a ten-byte header that announces 2^64 - 1 octets passes the length check |
| WebSocketListen.DrainAppend | src/simple_socket/ws/WebSocketConnection.hpp:191-313 | parsing a buffer and later its remainder with more bytes equals parsing all at once |
| WebSocketListen.FeedIsOnePass | src/simple_socket/ws/WebSocketConnection.hpp:185-314 | the loop over any list of pieces ends in the state of one pass over their concatenation |
| WebSocketListen.ChunkingIndependence | src/simple_socket/ws/WebSocketConnection.hpp:178-315 | two cuts of one stream give the same deliveries and replies in the same order, the same status and the same stop point |
| WebSocketListen.UndefinedReached | src/simple_socket/ws/WebSocketConnection.hpp:228-240 | on these ten bytes the loop leaves defined behaviour |
| WebSocketListen.AlwaysSound | src/simple_socket/ws/WebSocketConnection.hpp:180-183 | in every reachable state `continued` holds iff `startOpcode` is text or binary, and `message` is empty otherwise, whatever the peer sends |
| WebSocketListen.WebSocketConnection.NextFrame | src/simple_socket/ws/WebSocketConnection.hpp:193-246 | the in-place header and payload parsing at `pos` decides as the function on the unread bytes does |
| WebSocketListen.WebSocketConnection.HandleFrame | src/simple_socket/ws/WebSocketConnection.hpp:248-309 | next assembly state, messages delivered, frames written and closing, for each opcode |
| WebSocketListen.WebSocketConnection.DrainBuffer | src/simple_socket/ws/WebSocketConnection.hpp:191-313 | the inner loop handles all complete frames and leaves exactly the unparsed remainder |
| WebSocketListen.WebSocketConnection.Listen | src/simple_socket/ws/WebSocketConnection.hpp:178-315 | for every read schedule the calls of onMessage, the frames written back and the closed flag are those of one pass over the stream; end of stream does not close |
| WebSocketListen.WebSocketConnection.Send | src/simple_socket/ws/WebSocketConnection.hpp:67-77 | one text or binary frame with the whole message, and the result of its write |
| WebSocketMessages.LegalStreamRuns | src/simple_socket/ws/WebSocketConnection.hpp:248-309 | on every legal frame sequence, with controls between fragments, the deliveries are the concatenated payloads and each ping is answered by a pong with its payload |
| WebSocketMessages.AcceptsExactlyLegal | src/simple_socket/ws/WebSocketConnection.hpp:248-309 | the loop keeps going on a frame sequence if and only if the sequence follows the fragmentation grammar |
| WebSocketMessages.ParseStream | src/simple_socket/ws/WebSocketConnection.hpp:248-309 | every sequence the loop does not stop on can be split into legal messages and controls |
| WebSocketMessages.StopIsFinal | src/simple_socket/ws/WebSocketConnection.hpp:248-309 | after a violation or a close frame nothing is delivered or answered any more |
| WebSocketMessages.StopsExactly | src/simple_socket/ws/WebSocketConnection.hpp:248-309 | a sequence the loop stops on is a legal beginning and one offending frame; the output is the meaning of the beginning and one close frame, 1000 for a close frame and 1002 otherwise, so nothing of an unfinished message is delivered |
| WebSocketMessages.StopOnTheWire | src/simple_socket/ws/WebSocketConnection.hpp:248-309 | the same on bytes, whatever follows |
| WebSocketMessages.BadMaskCloses | src/simple_socket/ws/WebSocketConnection.hpp:203-214 | a mask bit that does not fit the role is answered with one 1002 close frame, nothing is delivered |
| WebSocketMessages.DrainFrames | src/simple_socket/ws/WebSocketConnection.hpp:178-315 | on the bytes of any frames with any masks the receiver acts as on the frames themselves and goes on right behind them |
| WebSocketMessages.LegalStreamOnTheWire | src/simple_socket/ws/WebSocketConnection.hpp:178-315 | reassembly on bytes: a legal masked stream delivers its messages and leaves the open fragment, all bytes taken |
| WebSocketMessages.EndToEnd | src/simple_socket/ws/WebSocketConnection.hpp:67-77 | what any number of senders write under the lock is delivered exactly, in lock order, and exactly those bytes are consumed |
| WebSocketMessages.EndToEndClosed | src/simple_socket/ws/WebSocketConnection.hpp:79-87 | the same with a close at the end: the receiver answers with a 1000 close frame, closes, and ignores what follows |
| WebSocketClose.Always | src/simple_socket/ws/WebSocketConnection.hpp:79-109 | the invariant on the closed flag, the write lock, the thread handle and the onClose count in every state of every interleaving |
| WebSocketClose.OnCloseExactlyOnce | src/simple_socket/ws/WebSocketConnection.hpp:79-109 | onClose has run at most once at any time, and exactly once, with the receive thread gone, when the destructor has returned |
| WebSocketClose.OneGoodbye | src/simple_socket/ws/WebSocketConnection.hpp:79-87 | when the connection is closed, exactly one close frame has been written by close(true) if it won the exchange, and none if close(false) did |
| WebSocketClose.NoSelfJoin | src/simple_socket/ws/WebSocketConnection.hpp:91-93 | only the owner joins, and only a thread that was started and not joined before |
| WebSocketClose.JoinAfterClose | src/simple_socket/ws/WebSocketConnection.hpp:79-109 | when the owner joins, the connection is closed or the receive thread is inside `close` about to close it, so it waits for no byte of the peer |
| WebSocketClose.JoinReturns | src/simple_socket/ws/WebSocketConnection.hpp:91-109 | while the owner waits in `join` the receive thread can move, nobody else can, and every move decreases a rank, so `join` returns |
| WebSocketClose.NoDeadlock | src/simple_socket/ws/WebSocketConnection.hpp:79-109 | with a read that blocks until the peer sends or the connection is closed, one of the two threads can move without the peer until the destructor has returned |
| Sha1.Loop1 | src/simple_socket/ws/WebSocketHandshakeKeyGen.hpp:65-70 | one step of the first loop is one FIPS 180-4 round on the index-rotated variables |
| Sha1.Loop2 | src/simple_socket/ws/WebSocketHandshakeKeyGen.hpp:71-77 | rounds 16 to 19, with the schedule word computed in place |
| Sha1.Loop3 | src/simple_socket/ws/WebSocketHandshakeKeyGen.hpp:78-83 | rounds 20 to 39, schedule index shifted by 4 |
| Sha1.Loop4 | src/simple_socket/ws/WebSocketHandshakeKeyGen.hpp:84-90 | rounds 40 to 59 with the rewritten majority, schedule index shifted by 8 |
| Sha1.Loop5 | src/simple_socket/ws/WebSocketHandshakeKeyGen.hpp:91-96 | rounds 60 to 79, schedule index shifted by 12 |
| Sha1.BlkIsSchedule | src/simple_socket/ws/WebSocketHandshakeKeyGen.hpp:55-58 | the circular buffer yields schedule word t and holds words t-15 to t after it is stored |
| Sha1.RoundStep | src/simple_socket/ws/WebSocketHandshakeKeyGen.hpp:66-69 | adding into the oldest variable and rotating one in place is the five-way move of the standard |
| Sha1.RotlBit | src/simple_socket/ws/WebSocketHandshakeKeyGen.hpp:51-54 | the rotation takes bit i to bit i + n modulo 32, for the three distances in use |
| Sha1.MajForm | src/simple_socket/ws/WebSocketHandshakeKeyGen.hpp:86-87 | the code's majority is Maj of FIPS 180-4 |
| Sha1.ChForm | src/simple_socket/ws/WebSocketHandshakeKeyGen.hpp:67 | the code's choice is Ch of FIPS 180-4 |
| Sha1.Sha1Block | src/simple_socket/ws/WebSocketHandshakeKeyGen.hpp:102-111 | for every chaining value and block, `sha1` leaves the 80-round result of section 6.1.2 of FIPS 180-4 in `hash` |
| Base64.RoundTrip | src/simple_socket/ws/WebSocketClient.cpp:21-49 | a decoder inverts the encoding of every octet string, whose length is 4*ceil(n/3) |
| Base64.RfcVectors | src/simple_socket/ws/WebSocketClient.cpp:21-49 | three vectors of section 10 of RFC 4648, with two, one and no padding characters |
| Base64.Base64Encode | src/simple_socket/ws/WebSocketClient.cpp:21-49 | the client's encoder, which packs three octets into one number, computes that encoding |
| Base64.Base64Of20 | src/simple_socket/ws/WebSocketHandshakeKeyGen.hpp:113-127 | the unrolled encoder of the key generator computes the same encoding on 20 octets |
| AcceptKey.PadFillsBlocks | src/simple_socket/ws/WebSocketHandshakeKeyGen.hpp:137-160 | the padding the blocks are compared with fills whole blocks, with no zero octet to spare |
| AcceptKey.BlocksArePadding | src/simple_socket/ws/WebSocketHandshakeKeyGen.hpp:137-160 | the two hard-coded blocks are the section 5.1.1 padding of the 24-octet key followed by the GUID |
| AcceptKey.DigestOf60 | src/simple_socket/ws/WebSocketHandshakeKeyGen.hpp:159-161 | the SHA-1 digest of key and GUID is two compressions from the standard initial value over these blocks |
| AcceptKey.SwapOctets | src/simple_socket/ws/WebSocketHandshakeKeyGen.hpp:162-170 | the in-place swap of the words' little-endian memory gives the big-endian digest octets |
| AcceptKey.DigestIsBigEndian | src/simple_socket/ws/WebSocketHandshakeKeyGen.hpp:162-170 | the digest octets, read as the message is cut into words, are the words of the chain |
| AcceptKey.Field24Faithful | src/simple_socket/ws/WebSocketHandshakeKeyGen.hpp:132-134 | `strncpy` keeps a 24-octet key if and only if nothing but NULs follows its first NUL |
| AcceptKey.Generate | src/simple_socket/ws/WebSocketHandshakeKeyGen.hpp:130-172 | for every input the output is base64 of SHA-1 of the 24-octet field followed by the GUID |
| AcceptKey.KeyWithoutNul | src/simple_socket/ws/WebSocketHandshakeKeyGen.hpp:132-134 | for a 24-octet key without NUL that field is the key itself |
| SharedMemory.PreservedByWrite | src/simple_socket/SharedMemoryConnection.cpp:159-177 | every small step of `write` keeps the channel invariant |
| SharedMemory.PreservedByRead | src/simple_socket/SharedMemoryConnection.cpp:129-157 | every small step of `read`, the path that drops an oversize message included, keeps it |
| SharedMemory.Alone | src/simple_socket/SharedMemoryConnection.cpp:129-177 | a thread between its two semaphore operations is alone there |
| SharedMemory.TokenConservation | src/simple_socket/SharedMemoryConnection.cpp:129-177 | in each direction both semaphores and the threads inside always add up to 1 |
| SharedMemory.NoTearingAndFifo | src/simple_socket/SharedMemoryConnection.cpp:129-177 | over all interleavings of any number of threads the reads are the writes, whole and in order, at most one behind; a message is returned if and only if it fits the reader's buffer; one side writes and the other reads |
| SharedMemory.DirectionCanMove | src/simple_socket/SharedMemoryConnection.cpp:129-177 | in each direction of every reachable state somebody of the right side can move: begin any write that fits on an empty slot, any read on a full one, or go on |
| MqttCodec.EncodeRemainingLength | src/simple_socket/mqtt/mqtt_common.hpp:34-43 | the do-while loop produces the groups of seven bits with continuation bits |
| MqttCodec.DecodeRemainingLength | src/simple_socket/mqtt/mqtt_common.hpp:45-56 | for every read schedule: the value of at most four groups, 0 if the stream ends inside, and exactly the bytes taken |
| MqttCodec.LengthRoundTrip | src/simple_socket/mqtt/mqtt_common.hpp:34-56 | decoding an encoding before any bytes returns the length and stops behind it if and only if it is at most 268435455; otherwise the exact wrong value |
| MqttCodec.EncodingShortest | src/simple_socket/mqtt/mqtt_common.hpp:34-43 | no complete field stands for the same number in fewer bytes |
| MqttCodec.EncodingPrefixFree | src/simple_socket/mqtt/mqtt_common.hpp:34-43 | no encoding is the beginning of another |
| MqttCodec.AtMostFourBytes | src/simple_socket/mqtt/mqtt_common.hpp:34-43 | one to four bytes exactly for the allowed lengths |
| MqttCodec.ReadPacket | src/simple_socket/mqtt/MQTTBroker.cpp:265-269 | the head of the read loops takes the first packet of the stream, or finds none, for every read schedule |
| MqttCodec.PacketRoundTrip | src/simple_socket/mqtt/MQTTClient.cpp:165-170 | a packet is read back with header and payload and nothing more is taken |
| MqttCodec.BuildPublish | src/simple_socket/mqtt/MQTTBroker.cpp:198-210 | the fan-out packet is the PUBLISH packet of topic and message |
| MqttCodec.PublishParses | src/simple_socket/mqtt/MQTTClient.cpp:212-242 | topic and message are recovered from a PUBLISH payload if and only if the topic is shorter than 65536 bytes |
| MqttCodec.IdentifierSkipped | src/simple_socket/mqtt/MQTTBroker.cpp:180-191 | under quality of service 1 and 2 the packet identifier is skipped |
| MqttCodec.PublishEndToEnd | src/simple_socket/mqtt/MQTTBroker.cpp:169-210 | client to broker to client: the packet the broker rebuilds is byte-identical and parses to the same topic and message |
| MqttCodec.ParsedIsPublishable | src/simple_socket/mqtt/MQTTBroker.cpp:169-191 | whatever the broker takes out of a received PUBLISH fits a packet again |
| MqttCodec.ConnectParses | src/simple_socket/mqtt/MQTTBroker.cpp:140-153 | the broker finds the client identifier in the client's CONNECT |
| MqttCodec.FilterParses | src/simple_socket/mqtt/MQTTBroker.cpp:234-244 | the broker finds packet identifier and topic in the client's SUBSCRIBE and UNSUBSCRIBE |
| MqttCodec.BuildConnect | src/simple_socket/mqtt/MQTTClient.cpp:84-98 | the vectors appended form the CONNECT packet |
| MqttCodec.BuildSubscribe | src/simple_socket/mqtt/MQTTClient.cpp:108-119 | the vectors appended form the SUBSCRIBE packet |
| MqttCodec.BuildUnsubscribe | src/simple_socket/mqtt/MQTTClient.cpp:135-145 | the vectors appended form the UNSUBSCRIBE packet |
| MqttCodec.StringOnWire | src/simple_socket/mqtt/mqtt_common.hpp:24-31 | a string is preceded by its length, the higher octet first |
| MqttCodec.ConnectOnWire | src/simple_socket/mqtt/MQTTClient.cpp:84-98 | the octets of CONNECT: 0x10, the remaining length, protocol name and level, flags, keep-alive, client identifier |
| MqttCodec.SubscribeOnWire | src/simple_socket/mqtt/MQTTClient.cpp:108-145 | the octets of SUBSCRIBE (0x82) and UNSUBSCRIBE (0xA2) |
| MqttCodec.PublishOnWire | src/simple_socket/mqtt/MQTTClient.cpp:160-170 | the octets of PUBLISH (0x30) |
| MqttBroker.RegistryPreserved | src/simple_socket/mqtt/MQTTBroker.cpp:129-339 | every action keeps: a client is listed under a topic if and only if it is alive, has the topic and has not lost it to a failed publish |
| MqttBroker.RegistrySafety | src/simple_socket/mqtt/MQTTBroker.cpp:129-167 | over all runs nobody whose `handleClient` has returned is listed; a live client with the topic is listed unless a publish on it failed since it subscribed |
| MqttBroker.TotalOrder | src/simple_socket/mqtt/MQTTBroker.cpp:193-228 | over all runs each client's output is the global log with each entry as often as the client occurs in the served part of the list, so no two clients see two publishes in opposite orders |
| MqttBroker.PublishReaches | src/simple_socket/mqtt/MQTTBroker.cpp:212-228 | a publish adds its packet to the output of each client as often as it is listed before the first failed write, and only a failure takes the topic away |
| MqttBroker.ListedGetsIt | src/simple_socket/mqtt/MQTTBroker.cpp:212-228 | a listed client gets every publish that does not fail |
| MqttBroker.EntryIsServed | src/simple_socket/mqtt/MQTTBroker.cpp:212-228 | over all runs the served part of a log entry is the topic's list in the state of that publish, whole unless a write failed |
| MqttBroker.ListingCounts | src/simple_socket/mqtt/MQTTBroker.cpp:246-337 | a client is listed once more after each SUBSCRIBE, not at all after UNSUBSCRIBE or cleanup, and nobody else is concerned |
| MqttBroker.PositionsMatch | src/simple_socket/mqtt/MQTTBroker.cpp:212-228 | the k-th packet of a client is that of a log entry whose position never decreases with k |
| MqttBroker.Always | src/simple_socket/mqtt/MQTTBroker.cpp:129-339 | registry, output share and packet bounds in every state of every run |
| MqttBroker.Broker.AddSubscriber | src/simple_socket/mqtt/MQTTBroker.cpp:246-250 | the critical section of SUBSCRIBE is the model's step: a repeated one lists the client again |
| MqttBroker.Broker.RemoveSubscriber | src/simple_socket/mqtt/MQTTBroker.cpp:297-302 | the critical section of UNSUBSCRIBE removes every listing of the client |
| MqttBroker.Broker.WriteToAll | src/simple_socket/mqtt/MQTTBroker.cpp:217-223 | the packet goes to the subscribers in order up to the first write that fails |
| MqttBroker.Broker.PublishSection | src/simple_socket/mqtt/MQTTBroker.cpp:198-228 | with the results of the writes as inputs, the second critical section is the publish step whose failure is the first write that fails |
| MqttBroker.Broker.EraseClient | src/simple_socket/mqtt/MQTTBroker.cpp:301 | the loop removes exactly the occurrences of the client and keeps the order of the others |
| MqttBroker.Broker.CleanupClient | src/simple_socket/mqtt/MQTTBroker.cpp:333-337 | cleanup removes the client from every topic it has, in any order of topics |
| MqttBrokerThread.TopicAndMessage | src/simple_socket/mqtt/MQTTBroker.cpp:169-191 | the cursor walk over topic length, topic and packet identifier yields topic and message, or rejects the packet |
| MqttBrokerThread.Connect | src/simple_socket/mqtt/MQTTBroker.cpp:131-157 | CONNACK is written if and only if the stream starts with a CONNECT that parses; the loop is entered if and only if that write succeeds as well |
| MqttBrokerThread.HandlePublish | src/simple_socket/mqtt/MQTTBroker.cpp:169-229 | with any steps of other threads between the two critical sections, the thread's own moves are: none for a malformed packet; a lookup; and, for a topic with an entry, a publish of this topic and message to the list found at the second section |
| MqttBrokerThread.HandleSubscriber | src/simple_socket/mqtt/MQTTBroker.cpp:231-260 | the one move is the subscription to the topic in the packet, the one answer a SUBACK with its identifier, and the loop goes on if that is written; a malformed packet does nothing |
| MqttBrokerThread.HandleUnsubscribe | src/simple_socket/mqtt/MQTTBroker.cpp:285-311 | the same for removal and UNSUBACK |
| MqttBrokerThread.HandlePacket | src/simple_socket/mqtt/MQTTBroker.cpp:271-328 | for every packet the moves of the thread and its answers are exactly those the packet asks for |
| MqttBrokerThread.Finish | src/simple_socket/mqtt/MQTTBroker.cpp:332-339 | cleanup is the thread's last move, and the connection is closed |
| MqttBrokerThread.ClientLoop | src/simple_socket/mqtt/MQTTBroker.cpp:262-330 | for every read schedule and any steps of other threads, with the stop flag, exceptions and the results of writes as inputs: the moves this client adds to the history and the answers it gets are those of `LoopLife` on its stream |
| MqttBrokerThread.HandleClient | src/simple_socket/mqtt/MQTTBroker.cpp:129-167 | a client is served if and only if it sends a CONNECT and the CONNACK is written; its moves and answers are then what the stream behind it asks for, up to where an input cuts it short; what it adds to the log are its PUBLISH packets in order; afterwards it is in no list and its connection is closed |
| MqttStream.LifeExactly | src/simple_socket/mqtt/MQTTBroker.cpp:264-330 | the loop does all that the stream asks for, or a beginning of it, and is cut short only where the stop flag, an exception or a failed write says so |
| MqttStream.AskedBySubscribe | src/simple_socket/mqtt/MQTTClient.cpp:108-119 | the client's SUBSCRIBE asks for the subscription and is answered 0x90 0x03 with its identifier |
| MqttStream.AskedByUnsubscribe | src/simple_socket/mqtt/MQTTClient.cpp:135-145 | the client's UNSUBSCRIBE asks for the removal and is answered 0xB0 0x02 with its identifier |
| MqttStream.AskedByPublish | src/simple_socket/mqtt/MQTTClient.cpp:160-168 | the client's PUBLISH asks for this publish and is not answered |
| MqttStream.AskedByPing | src/simple_socket/mqtt/MQTTBroker.cpp:313-319 | PINGREQ is answered 0xD0 0x00 |
| MqttStream.NothingAfterDisconnect | src/simple_socket/mqtt/MQTTBroker.cpp:321-323 | nothing behind a DISCONNECT is looked at |
| MqttStream.ConnectStarts | src/simple_socket/mqtt/MQTTClient.cpp:84-96 | the client's CONNECT is one for the broker, and the stream goes on right behind it |
| MqttHistory.StatesAreRun | src/simple_socket/mqtt/MQTTBroker.cpp:129-339 | a history of labelled steps is a run of the transition system, so the results on runs hold for it |
| MqttHistory.LogMatches | src/simple_socket/mqtt/MQTTBroker.cpp:212-228 | in every history the log entries of a publisher are what its own moves have logged, in order |
| MqttHistory.LoggedAreWishes | src/simple_socket/mqtt/MQTTBroker.cpp:169-229 | moves that fulfil the wishes of a stream log only its PUBLISH packets, in the order of the stream |
| MqttClient.Run | src/simple_socket/mqtt/MQTTClient.cpp:180-247 | for every read schedule, and with callbacks that change between any two packets, the calls made are those of one pass over the stream |
| MqttClient.AnswerSkipped | src/simple_socket/mqtt/MQTTClient.cpp:192-246 | a packet other than PUBLISH makes no call and takes exactly its bytes |
| MqttClient.BrokerToClient | src/simple_socket/mqtt/MQTTClient.cpp:180-247 | in any run of the broker, with any answer packets between the PUBLISH packets of the client's connection, the loop calls exactly the callbacks of the log entries the client was served whose topic has one when the packet is handled, in log order |
| MqttClient.SameCallbacks | src/simple_socket/mqtt/MQTTClient.cpp:238-241 | with callbacks that stay the same these are the served entries with a callback, wherever the answers stand |
| MessageQueue.TakeConserves | src/simple_socket/mqtt/WsMqttWrapper.hpp:28-37 | a read loses no byte and keeps the order, the split message going back to the front |
| MessageQueue.ZeroExactly | src/simple_socket/mqtt/WsMqttWrapper.hpp:31-39 | a read of positive size returns 0 if and only if the front message is empty |
| MessageQueue.ExactSucceedsExactly | include/simple_socket/SimpleConnection.hpp:16-28 | `readExact` on a queue succeeds if and only if the bytes asked for stand before the first empty message, and then hands out exactly the next ones |
| MessageQueue.EmptyMessageFails | src/simple_socket/mqtt/WsMqttWrapper.hpp:28-39 | with an empty message before a queued byte a `readExact` of one byte fails |
| MessageQueue.QueueIsStream | src/simple_socket/mqtt/WsMqttWrapper.hpp:23-61 | over all interleavings of push, read and close, bytes returned followed by bytes queued are the bytes pushed; -1 only after close |
| MessageQueue.EndMeansDrained | src/simple_socket/mqtt/WsMqttWrapper.hpp:25-26 | whenever a read returns -1, the first time or later, the queue is closed and every byte pushed so far has been returned |
| MessageQueue.WsWrapper.Read | src/simple_socket/mqtt/WsMqttWrapper.hpp:23-40 | with other threads pushing and closing during the wait: the next bytes of the stream, or -1 closed and drained |
| MessageQueue.WsWrapper.ReadExact | include/simple_socket/SimpleConnection.hpp:16-28 | with other threads pushing and closing: result, bytes and remaining queue are those of `readExact` on the messages found and arrived; without empty messages a failure means closed and drained |
| Transport.Connection.ReadExact | include/simple_socket/SimpleConnection.hpp:16-28 | for every read schedule: success if and only if enough bytes remain, and the bytes are the next ones |
| HttpBody.LineInBuffer | src/simple_socket/http/SimpleHttpFetcher.cpp:131-143 | a line found in the buffer is the first line of all unread bytes, whatever is still to arrive |
| HttpBody.ReadLineCRLF | src/simple_socket/http/SimpleHttpFetcher.cpp:131-143 | refilling and searching return the first line of the unread bytes and step behind its CRLF |
| HttpBody.EnsureN | src/simple_socket/http/SimpleHttpFetcher.cpp:145-150 | succeeds if and only if buffer and stream together hold the bytes needed |
| HttpBody.DecodeChunked | src/simple_socket/http/SimpleHttpFetcher.cpp:152-179 | result, body and rest depend on the concatenated stream alone; `off` stays inside the buffer; the loop ends because the unread bytes decrease |
| HttpBody.ChunkedRoundTrip | src/simple_socket/http/SimpleHttpFetcher.cpp:152-179 | every body, in any non-empty chunks, with any spelling of the sizes, extensions and trailers without CRLF inside, is decoded exactly, and what follows is left |
| HttpBody.LineRoundTrip | src/simple_socket/http/SimpleHttpFetcher.cpp:134-139 | a line without CRLF inside is read back, even when it ends in CR |
| HttpBody.SizeRoundTrip | src/simple_socket/http/SimpleHttpFetcher.cpp:156-162 | every hexadecimal spelling of a size, with or without extension, parses to the size |
| HttpBody.UsualSize | src/simple_socket/http/SimpleHttpFetcher.cpp:156-162 | every size below 2^64 printed in lower-case hexadecimal is read back |
| HttpBody.SignInFront | src/simple_socket/http/SimpleHttpFetcher.cpp:159-162 | a plus sign changes nothing, a minus sign negates modulo 2^64 |
| HttpBody.PrefixInFront | src/simple_socket/http/SimpleHttpFetcher.cpp:159-162 | 0x in front changes nothing |
| HttpBody.OverrunExactly | src/simple_socket/http/SimpleHttpFetcher.cpp:172-173 | the copy leaves the buffer exactly when offset + size + 2 wraps around and the wrapped number of bytes is there |
| HttpBody.OverrunExists | src/simple_socket/http/SimpleHttpFetcher.cpp:172-173 | a size line of sixteen F and one byte do it |
| HttpBody.ReadHeader | src/simple_socket/http/SimpleHttpFetcher.cpp:221-283 | the header block ends at the first blank line of the stream, for every read schedule |
| HttpBody.FetchBytes | src/simple_socket/http/SimpleHttpFetcher.cpp:221-283 | in the three body modes the result is a function of the whole response, independent of how it arrives |
| HttpBody.FetchLength | src/simple_socket/http/SimpleHttpFetcher.cpp:250-267 | a body with a length is exactly the bytes behind the blank line that were announced; too few give no result |
| HttpBody.FetchUntilClose | src/simple_socket/http/SimpleHttpFetcher.cpp:269-275 | without length the body is everything behind the blank line |
| HttpBody.FetchChunked | src/simple_socket/http/SimpleHttpFetcher.cpp:240-247 | a chunked body is the concatenation of its chunks, however they are printed |
| HttpBody.FetchNothing | src/simple_socket/http/SimpleHttpFetcher.cpp:278-282 | without a blank line there is no result |
| ModbusClient.MakeRequest | src/simple_socket/modbus/ModbusClient.cpp:12-33 | header, length field and data of the request, the length cut to 16 bits |
| ModbusClient.ParseRegistersResponse | src/simple_socket/modbus/ModbusClient.cpp:36-58 | the values of a response that is long enough and has the right byte count, an exception otherwise |
| ModbusClient.Client.ReadHoldingRegisters | src/simple_socket/modbus/ModbusClient.cpp:82-98 | one request under the next transaction id, one read of at most 255 bytes, and what is parsed from it |
| ModbusClient.Client.WriteSingleRegister | src/simple_socket/modbus/ModbusClient.cpp:110-130 | returns true if and only if the bytes of one read confirm address and value |
| ModbusClient.Client.WriteMultipleRegisters | src/simple_socket/modbus/ModbusClient.cpp:132-159 | the request carries all values; true if and only if the bytes of one read confirm address and count |
| Modbus.ReadTrueOrThrows | src/simple_socket/modbus/ModbusClient.cpp:36-108 | when the client has nothing unread before the call: for any count up to 65535 it gets the true values or throws; the values if and only if the range exists, the count is at most 123 and the reply arrives whole |
| Modbus.WriteVerdict | src/simple_socket/modbus/ModbusServer.cpp:74-103 | for any count up to 65535 the reply to the write confirms it if and only if the range exists and the count is at most 127; then exactly that range is changed, otherwise nothing |
| Modbus.WriteThenRead | src/simple_socket/modbus/ModbusServer.cpp:25-109 | for up to 123 registers in range the reply to the write confirms it, and the reply to a read of the range is parsed to the values written |
| Modbus.WriteOneVerdict | src/simple_socket/modbus/ModbusServer.cpp:59-72 | the reply to a single write echoes and confirms it if and only if the register exists, and only that register changes |
| Modbus.PartialReplyConfirmsNothing | src/simple_socket/modbus/ModbusClient.cpp:61-68 | a 3-byte exception reply or a part of a reply is never taken for a confirmation |
| Modbus.OtherCodeRefused | src/simple_socket/modbus/ModbusServer.cpp:105-108 | any other function code leaves the registers alone and gets the three-byte exception 1 |
| Modbus.RequestOnWire | src/simple_socket/modbus/ModbusClient.cpp:12-33 | the octets of a request: transaction, protocol 0, length, unit, function code, data, numbers with the higher octet first |
| Modbus.CallsOnWire | src/simple_socket/modbus/ModbusClient.cpp:82-145 | the octets of the three requests, each value in two octets |
| Modbus.ReplyOnWire | src/simple_socket/modbus/ModbusServer.cpp:38-55 | the octets of the reply to a read, each register in two octets |
| Modbus.ParsedSpelled | src/simple_socket/modbus/ModbusClient.cpp:36-58 | the values parsed are the numbers the octets spell |
| Modbus.ValuesRoundTrip | src/simple_socket/modbus/ModbusClient.cpp:142-145 | the values behind any prefix are read back by both parsers |
| ModbusSession.InStep | src/simple_socket/modbus/ModbusClient.cpp:82-159 | with nothing unread before, each kind of call gets the right answer if its reply fits one read and arrives whole, fails otherwise, and exactly in the first case leaves nothing unread |
| ModbusSession.SessionInStep | src/simple_socket/modbus/ModbusClient.cpp:82-159 | over any list of calls whose replies fit one read and arrive whole every answer is right, and the call after them is right or fails |
| ModbusSession.RightExactlyInStep | src/simple_socket/modbus/ModbusClient.cpp:100-108 | every next call whose reply arrives is answered rightly if and only if nothing is left unread |
| ModbusSession.TwoBytesLeft | src/simple_socket/modbus/ModbusClient.cpp:100-108 | a read of 124 registers throws and leaves two bytes of its reply unread |
| ModbusSession.LeftoverIsTakenForValue | src/simple_socket/modbus/ModbusClient.cpp:36-58 | after it a read of register 0 returns 770, whatever the register holds |
| ModbusSession.OneBehind | src/simple_socket/modbus/ModbusClient.cpp:82-108 | bytes left over that are read alone make every later call be answered by the reply to the call before |
| ModbusSession.OtherRegister | src/simple_socket/modbus/ModbusClient.cpp:36-58 | then a read of one register returns another one |
| ModbusSession.OtherConfirmation | src/simple_socket/modbus/ModbusClient.cpp:61-68 | then the reply to a single write confirms a write of several registers that the server refuses |
| ModbusServer.ProcessRequest | src/simple_socket/modbus/ModbusServer.cpp:25-109 | one reply and the new registers for every request, or a read behind the end of the request |
| ModbusServer.ClientThread | src/simple_socket/modbus/ModbusServer.cpp:134-156 | for every read schedule the server's replies and registers are those of one pass over the stream with the reused buffer |
| ModbusServer.StreamFraming | src/simple_socket/modbus/ModbusServer.cpp:134-156 | requests sent back to back are recovered exactly and in order |
| ModbusServer.FrameExactly | src/simple_socket/modbus/ModbusClient.cpp:21-23 | the length field of a request describes it, except exactly for writes of more than 32764 values |
| Modbus.OverwriteAt | src/simple_socket/modbus/ModbusServer.cpp:86-90 | each register of the range gets its value, each other one keeps its own |
| ModbusServer.CallsOnTheWire | src/simple_socket/modbus/ModbusServer.cpp:134-156 | for any list of calls on one stream the register store is the fold of their effects, and reply i answers call i in the state the calls before it left |
| ModbusServer.CutFrameExactly | src/simple_socket/modbus/ModbusServer.cpp:140-154 | a stream cut inside a request is served as if it ended before it if and only if the cut is inside the six header bytes |
| ModbusServer.StaleRequestWrites | src/simple_socket/modbus/ModbusServer.cpp:150-154 | a header alone, after a write with transaction id 6, makes the server write a register |
| ModbusServer.LongWriteHarmlessExactly | src/simple_socket/modbus/ModbusClient.cpp:132-159 | for 128 to 65535 registers a write changes nothing and stays defined if and only if there are at most 32764 |
| ModbusServer.WrappedWrite | src/simple_socket/modbus/ModbusServer.cpp:145-154 | values of a write of 32768 to 65532 registers that the server executes as a request of their own |
| ModbusServer.HoldingRegister.SetUint32 | src/simple_socket/modbus/HoldingRegister.cpp:30-34 | two registers come to hold the value, most significant first, and no other changes; out of bounds nothing does |
| ModbusServer.HoldingRegister.GetUint32 | src/simple_socket/modbus/HoldingRegister.cpp:36-40 | the number two registers hold, or the exception |

## Left out

- Sockets, UDP, Unix domain, TLS and Winsock wrappers, name resolution, port probing: foreign calls without logic of their own.
- Thread creation, accept loops, sleeps, stop flags and memory fences: threads are interleaved steps, and a loop ended by a stop flag is a shorter stream.
- Semaphore and shared-memory creation, unlinking, layout and interrupted waits: both channels start with counts 1 and 0.
- The broker's `clients_` vector and the `connections` map of `wsAcceptLoop`: not guarded by the mutex and not part of routing.
- URL, host and port parsing, header maps, trimming: the body mode is an input of `HttpBody.FetchBytes`.
- WebSocket handshake text and its validation: the frame stream starts after the handshake.
- Random masks and keys are arbitrary inputs; floats and doubles, which are stored as bit patterns, are not modelled.
- Setters and getters for 64 bits, and the text helpers of `modbus_helper.hpp`: the same shape as the 32-bit ones.
- The order in which the broker's threads put answers and PUBLISH packets on one connection: `MqttClient.BrokerToClient` holds for every order.
- Out-of-memory exceptions and allocation of huge payloads announced by a peer.
- WebSocketListen.WebSocketConnection.Listen: `closed_` changes only by the loop itself; a close by another thread ends the loop between two reads, which is the run on a shorter stream. Callbacks do not call back into the connection, are always set, and the results of writes are ignored as in the code.
- ModbusSession.SessionInStep: requests within the length field, a server that answers, and one client; a failed read is not told apart from a refusal.
- WebSocketClose.OnCloseExactlyOnce: one owner thread next to the receive thread; `send` of further threads, which holds the write lock for one write, is not a step.
- WebSocketMessages.EndToEnd: payloads below 2^63 octets, as section 5.2 of RFC 6455 allows.
- Sha1.Sha1Block: the content left in the schedule buffer is not stated, because nobody reads it.
- HttpBody.ChunkedRoundTrip: the whole stream is shorter than 2^64 bytes, the size of the code's offsets.
- MqttBrokerThread.HandleClient: an exception is taken between two packets, not inside a critical section.
- MqttBroker.TotalOrder: a write to a subscriber delivers the whole packet or nothing and does not throw.
- The `write` of the MQTT adapter, which forwards to `send` of the WebSocket connection.
- Modbus.WriteVerdict: about a request that is processed whole and its own reply; `ModbusServer.LongWriteHarmlessExactly` and `ModbusSession.RightExactlyInStep` say when it is and when the client reads that reply. More than 65535 registers, which no address range has, are not considered.
- ModbusServer.ClientThread: one client; with several clients the registers of one request are accessed one at a time under the mutex, and a reader may see part of another client's write.
