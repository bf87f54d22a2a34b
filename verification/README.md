# manet: a verified model

manet is a single-threaded, edge-triggered client reactor. A *connection* drives one non-blocking
socket, a transport (plain or TLS) and a protocol session; the one protocol that comes with it is a
WebSocket client (RFC 6455). A *reactor* polls the network and drives a fixed set of connections.
This project models those parts in Dafny and proves what they guarantee over whole byte streams and
whole runs.

`dafny verify dfyconfig.toml` checks everything.

## What is proved

**Byte streams.** However the server's bytes are cut into reads, the session makes the same codec
calls, writes the same bytes, gives the same verdict and ends in the same state, the upgrade
response included (`SessionLaws.ChunkingDoesNotMatter`). Whatever messages the server sends, however
each is fragmented, and whatever pings and pongs stand between and inside them, the codec gets every
message whole, once and in order, and every ping is answered in order (`SessionLaws.Reassembly`,
`WebSocketRuns.UpgradeThenTalk`). The frame
parser inverts the encoder, never misreads a prefix and never changes its mind. The response scanner
accepts every well-made response (`Responses.Accepted`); `Acceptance.AcceptedExactly` and
`Acceptance.RefusedExactly` say for every input, in terms of its bytes alone, whether it is accepted,
refused with an error, or waited for. The key it is compared with is the base64 text of the digest of
the request key followed by the GUID (`SessionLaws.KeyAnswersRequest`).

**Runs of one connection.** Every public method keeps `Connection.Resting`, whatever the network,
the transport and the protocol answer, over any number of restarts:

- the open sockets are exactly the connection's descriptor; nothing is leaked, closed twice, or
  closed while still watched;
- bytes are conserved: what the transport took followed by the write buffer is what the protocol
  wrote, and while talking what the protocol consumed followed by the read buffer is what arrived;
- callbacks come in order, with at most one teardown, and nothing but it follows a final shutdown;
- the protocol is kept from nothing: at rest, while talking, it has been shown every byte it has not
  consumed;
- the connection cannot stall: an open socket is always watched; while talking it is watched for
  reading, and for writing if bytes are left, and bytes are left only because the transport refused
  them; on the plain transport it is watched for nothing it cannot use;
- nothing happens unasked: bytes are read only on a readable edge, and while talking no callback is
  made, nothing is written and, without a writeable edge, nothing is sent unless new bytes arrived;
- an edge is used up: if the connection is talking after a readable event, the last read would have
  blocked, even when the same event carried it through several states;
- an event moves what waits for it: a pending connect is left exactly when the event says it is over,
  and a handshake, a drain or a shutdown of the transport rests only because its next step would block;
- normal operation is left exactly when the environment gave a reason, and an error needs evidence;
- in normal operation the session and its unread bytes are those of feeding the protocol everything
  received at once, as long as room was never short and the protocol is one for which it does not
  matter where the input is cut: exactly, and with the same output, if no heartbeat came, and else but
  for whatever a heartbeat may change that makes no difference in reading;
- on the plain transport a failed connection ends in the error state if and only if its first failure
  is not one of the three that the code overwrites (see below);
- state and descriptor agree (exactly, for transports without a shutdown step).

Inside one event the state only moves up a fixed order, so an event takes at most eight steps.

**Runs of the reactor.** From the kill signal on, whenever in a run it comes, nothing is dialed and
no protocol is called again except to shut down. Unless polling fails, the network is stopped exactly
when a stop was asked for and every connection is done, and then every socket ever opened has been
closed.

**A WebSocket from end to end.** A connection that has received the upgrade response and messages,
in whatever reads and fragments and with whatever pings in between, has given its codec each message
once and in order, heartbeats or not, and answered every ping (`WebSocketRuns.MessagesArrive`). A
connection stopped in normal operation that leaves draining without a failure has sent everything it
ever wrote, and the last eight bytes unmask to a Close frame with the code its codec chose: on every
transport, whether it is still closing it, has closed it, or failed to (`WebSocketRuns.StopRun`). The
same holds of every connection of a reactor after a kill (`WebSocketRuns.KillMeansGoodbye`).

## How the code is modelled

- `Bytes`, `Options`: bytes, exclusive or by bits, big-endian numbers.
- `Buffers`: the buffer as a class over an array, refining a queue (`Fifo`).
- `Base64`, `Frames`, `ControlFrames`, `Handshakes`: the codecs and the scanner, each loop as a
  method proved against a function.
- `HandshakeLaws`, `Responses`, `Acceptance`: what the scanner guarantees.
- `Protocols`: what a connection asks of a protocol, and the loop that feeds it.
- `Sessions`, `SessionLaws`, `SessionObjects`: the WebSocket session as functions, its laws, and the
  object with its message buffer, which computes those functions in place.
- `Kernels`, `Dialing`, `Transports`: descriptors, dialing, the plain transport.
- `CallOrder`, `Feedings`, `Connections`, `ConnectionRuns`, `Reactors`, `WebSocketRuns`: the order of
  callbacks, normal operation as one feeding, the state machine, its whole runs, the event loop, and
  the state machine together with WebSocket.

The outside world is arbitrary within its contract. System calls, transport outcomes, address lists
and events are nondeterministic or parameters; SHA-1, the request text, the random source and the
codec are function parameters of `Sessions.Config`; whether a protocol or transport has an optional
handler is a flag of `Connections.Features`. Ghost fields of `Connection` record what happened: the
sockets, the callbacks, the bytes each way, and what the environment last said.

Where the code departs from what one might expect, the model follows the code:

- The response terminator is CR LF+ CR+ LF rather than CR LF CR LF (`HandshakeLaws.LooseTerminator`);
  the two agree on text whose line breaks are all CR LF (`HandshakeLaws.PairedBlank`).
- A response without a Sec-WebSocket-Accept header is not refused as such: the value compared is then
  the first line of the response. `Acceptance.AcceptedWithoutHeader` gives such a response for every
  key without spaces, `Acceptance.AcceptedExactly` the exact condition, and `Acceptance.AcceptedHasHeader` a case a
  caller can rely on.
- Three failures do not end in the error state but in `Closed`, so that a reactor dials again: a write
  that fails while a close verdict is being followed, and a read that fails or a read buffer that is
  full while the connection drains. `Connections.Overwritten` names them. On the plain transport the
  first failure of a dial ends in `Closed` if and only if it is one of them
  (`ConnectionRuns.StateTellsFailure`, kept by every run of `ConnectionRuns.Drive`).
- A connection that was stopped and restarted before it was ever attached loses a socket when it is
  attached (`Connections.Connection.DialOverSocket`, reached in `ConnectionRuns.AttachTooLate`);
  `Attach` covers every other case.

Where the code's behaviour is undefined, the model stops following it:

- A 64-bit frame length within ten of 2^64 wraps around when the header size is added
  (include/manet/protocol/websocket_frame.hpp:117-131). The code then reports success, consumes the
  wrapped sum, which is less than ten, and passes on a view outside the input. The parser model
  reports exactly that as the verdict `OutOfBounds`; since the payload cannot be modelled, the session
  model answers with an error and consumes nothing. `Frames.OutOfBoundsExactly` says when it happens
  and `Frames.OutOfBoundsExample` that it does; section 5.2 of RFC 6455 rules such lengths out. What is
  proved of sessions and connections speaks of streams without such a header.
- The scanner takes a view of 28 bytes at the compared value even if fewer follow
  (src/manet/protocol/websocket.cc:214). The view is not used, and the model leaves it out.
- The space-skipping loop of the scanner is bounded by the input here. On incomplete input the
  result is the same, because nothing is consumed.

## Model

| member | source | states |
|---|---|---|
| Buffers.Conservation | include/manet/reactor/buffer.hpp:13-33 | over any run of writes and reads, what was read followed by what is left is what was there followed by what was written |
| Buffers.RoomComesBack | include/manet/reactor/buffer.hpp:26-33 | reading gives room back only by emptying the buffer, and then all of it |
| Buffers.Buffer.constructor | include/manet/reactor/buffer.hpp:8-11 | a new buffer is an empty queue of the whole capacity |
| Buffers.Buffer.RBuf | include/manet/reactor/buffer.hpp:13-16 | the readable view is the queue's contents in order |
| Buffers.Buffer.Room | include/manet/reactor/buffer.hpp:18-21 | the writable view's size is the queue's room |
| Buffers.Buffer.Clear | include/manet/reactor/buffer.hpp:23 | the queue is empty with all its room |
| Buffers.Buffer.IncWpos | include/manet/reactor/buffer.hpp:25 | the first bytes of the writable view join the back of the queue |
| Buffers.Buffer.IncRpos | include/manet/reactor/buffer.hpp:26-33 | bytes leave the front; an emptied buffer regains its whole capacity |
| Buffers.Buffer.Full | include/manet/reactor/buffer.hpp:35 | full exactly when the storage is used up |
| Base64.EncodeInto | include/manet/utils/base64.hpp:25-50 | the block loop and its tail fill the output array exactly with the encoding |
| Base64.TableIsAlphabet | include/manet/utils/base64.hpp:18-19 | the 64-character table is the alphabet the encoder uses |
| Base64.RoundTrip | include/manet/utils/base64.hpp:11-51 | for every length M the encoding has 4*((M+2)/3) characters and the reference decoder of section 4 of RFC 4648 recovers the input |
| Base64.Injective | include/manet/utils/base64.hpp:11-51 | different inputs have different encodings |
| Base64.Examples | include/manet/utils/base64.hpp:11-51 | the one- and two-byte examples of section 10 of RFC 4648 |
| Base64.LongerExample | include/manet/utils/base64.hpp:11-51 | its six-byte example |
| Frames.ParseFrame | include/manet/protocol/websocket_frame.hpp:67-132 | the single-pass parser, with its 64-bit shifting loop, computes the meaning `Parse`, the wrapped sum included |
| Frames.ReadLength | include/manet/protocol/websocket_frame.hpp:108-113 | eight shifts of a 64-bit accumulator give the big-endian length; none overflows |
| Frames.ParseEncode | include/manet/protocol/websocket_frame.hpp:67-132 | parsing an encoded frame followed by anything gives the frame and consumes exactly its bytes |
| Frames.PrefixNeedsMore | include/manet/protocol/websocket_frame.hpp:70-73 | every strict prefix of an encoding asks for more |
| Frames.ParseStable | include/manet/protocol/websocket_frame.hpp:67-132 | every other verdict is unchanged by appending bytes |
| Frames.ParseAllEncodeAll | include/manet/protocol/websocket_frame.hpp:67-132 | repeated parsing of concatenated encodings recovers the frame list and the unfinished rest |
| Frames.EncodeParsed | include/manet/protocol/websocket_frame.hpp:90-131 | the bytes of a parsed frame are its encoding exactly when its length field is the shortest |
| Frames.ParseShort | include/manet/protocol/websocket_frame.hpp:17-60 | on the wire, in numbers: the bytes of a final frame with a seven-bit length |
| Frames.ParseFirst | include/manet/protocol/websocket_frame.hpp:48-60 | the same of a frame that is not final |
| Frames.ParseMedium | include/manet/protocol/websocket_frame.hpp:90-100 | the same with a 16-bit length |
| Frames.ParseLong | include/manet/protocol/websocket_frame.hpp:101-131 | the same with a 64-bit length |
| Frames.OutOfBoundsExactly | include/manet/protocol/websocket_frame.hpp:101-131 | the sum of header and length wraps around if and only if a complete 64-bit length is within ten of 2^64; the sum consumed is then below ten |
| Frames.OutOfBoundsExample | include/manet/protocol/websocket_frame.hpp:101-131 | ten bytes that are reported as a frame and consume nothing |
| ControlFrames.WriteControlFrame | src/manet/protocol/websocket.cc:238-269 | writes exactly the masked frame at the start of the span and nothing else, or nothing when it does not fit or is too long |
| ControlFrames.ControlFrameHead | src/manet/protocol/websocket.cc:246-258 | the six bytes before the payload, in numbers |
| ControlFrames.ControlFrameBody | src/manet/protocol/websocket.cc:260-266 | byte six plus i is, bit by bit, the exclusive or of byte two plus i modulo four and payload byte i |
| Bytes.XorIsBitwise | src/manet/protocol/websocket.cc:262-266 | a bit of the exclusive or is set exactly if it is set in one of the two bytes, but not in both |
| ControlFrames.UnmaskControlFrame | src/manet/protocol/websocket.cc:238-269 | for every mask, a receiver that reads the bytes by that rule recovers opcode and payload |
| ControlFrames.UnmaskCloseFrame | src/manet/protocol/websocket.cc:271-278 | a Close frame unmasks to its code in network byte order |
| ControlFrames.CloseReplyIsCloseFrame | include/manet/protocol/websocket.hpp:313-328 | the hand-built reply is the frame the general writer makes for the same code under that mask |
| ControlFrames.CloseReplyEchoes | include/manet/protocol/websocket.hpp:299-331 | the reply carries back exactly the two code bytes received, without a reason, and 0x03 0xE8 if there were none |
| Handshakes.ScanHandshake | src/manet/protocol/websocket.cc:109-235 | the scanner computes `ReadHandshake`: how much is consumed, and the verdict |
| Handshakes.ScanHead | src/manet/protocol/websocket.cc:117-164 | the pass over the bytes finds the end of the head, the first space and the header's value |
| HandshakeLaws.ReadStable | src/manet/protocol/websocket.cc:109-235 | once the head is complete, consumption and verdict do not depend on what follows |
| HandshakeLaws.HeadEndsInBlank | src/manet/protocol/websocket.cc:86-107 | the head is the shortest prefix ending in CR LF+ CR+ LF; without one nothing is consumed |
| HandshakeLaws.PairedBlank | src/manet/protocol/websocket.cc:86-107 | in text whose line breaks are all CR LF that is the first CR LF CR LF |
| HandshakeLaws.LooseTerminator | src/manet/protocol/websocket.cc:93-107 | a bare LF inside the terminator is accepted: the first CR LF CR LF is not always the end |
| Acceptance.AcceptedExactly | src/manet/protocol/websocket.cc:109-235 | an input is accepted if and only if some shortest prefix ends in a blank line, its first space after the first byte is followed by 101, and its first line so named carries spaces and then the key to the end of the line, or no line is so named and the first line is the key; what is consumed is that prefix |
| Acceptance.RefusedExactly | src/manet/protocol/websocket.cc:166-234 | a complete head that is not acceptable is consumed and is an error; without a complete head nothing is consumed and the verdict is to go on |
| Acceptance.Spelled | src/manet/protocol/websocket.cc:109-164 | the constants the scanner compares with, as text |
| Acceptance.AnyCase | src/manet/protocol/websocket.cc:130-147 | the header's name counts if and only if it starts with a capital S and every other letter is small or capital |
| Acceptance.AcceptedWithoutHeader | src/manet/protocol/websocket.cc:201-232 | for every key that is a line without a space, a response without the header that is accepted |
| Acceptance.AcceptedHasHeader | src/manet/protocol/websocket.cc:201-232 | if the first line holds a space and the key does not, acceptance implies that the first header line carried the key |
| Responses.Accepted | src/manet/protocol/websocket.cc:109-235 | a response with 101 after the first space and the key in its first Sec-WebSocket-Accept line is accepted and consumed exactly, whatever follows |
| Protocols.CutAnywhere | include/manet/reactor/connection.hpp:530-555 | for a protocol whose calls either wait or act regardless of later bytes, feeding a then b is feeding a followed by b |
| Protocols.AnyChunking | include/manet/reactor/connection.hpp:530-555 | the same for any number of chunks |
| Protocols.RoomDoesNotMatter | include/manet/reactor/connection.hpp:530-555 | write room that varies between the calls, but is never too little, does not change the outcome |
| Protocols.CallsAreFeed | include/manet/reactor/connection.hpp:530-555 | a complete run of the consume loop whose calls behaved as with full room has the outcome of feeding |
| SessionLaws.LawfulWebSocket | include/manet/protocol/websocket.hpp:97-170 | every callback reads and writes only inside the views it is given |
| SessionLaws.StableWebSocket | include/manet/protocol/websocket.hpp:117-143 | a data callback either waits without effect or acts in a way later bytes do not change |
| SessionLaws.ChunkingDoesNotMatter | include/manet/protocol/websocket.hpp:117-264 | any two ways of cutting a stream give the same codec calls, output, verdict, session and unread bytes |
| SessionLaws.SatedWebSocket | include/manet/protocol/websocket.hpp:266-366 | with enough room for its reply, a call does not depend on the exact room |
| SessionLaws.FeedFrames | include/manet/protocol/websocket.hpp:173-264 | feeding the bytes of frames is taking the frames in order up to the first verdict |
| SessionLaws.MessageBounded | include/manet/protocol/websocket.hpp:198-211 | the message in progress never outgrows its buffer |
| SessionLaws.Reassembly | include/manet/protocol/websocket.hpp:187-243 | for every list of messages in one or more frames, and every interleaving and chunking, the codec gets each message whole and once under its first opcode, in order, pings are answered in order, and the buffer ends empty |
| SessionLaws.PingAnswered | include/manet/protocol/websocket.hpp:332-358 | a short ping is answered by one pong that unmasks to the same payload, under the next four random bytes |
| SessionLaws.PingRefused | include/manet/protocol/websocket.hpp:334-351 | exactly the pings that are too long or find no room end normal operation, writing nothing |
| SessionLaws.CloseAnswered | include/manet/protocol/websocket.hpp:299-331 | a Close frame always ends normal operation and is answered with its own code if there is room |
| SessionLaws.ShutdownSaysClose | include/manet/protocol/websocket.hpp:145-162 | shutdown writes exactly one Close frame with the codec's code, under the next four random bytes, or fails for want of room |
| SessionLaws.HeartbeatPings | include/manet/protocol/websocket.hpp:164-170 | a heartbeat is one empty ping under the next four random bytes, or nothing when there is no room; it changes nothing else |
| SessionLaws.MalformedRefused | include/manet/protocol/websocket.hpp:251-260 | a masked frame or a reserved bit is an error that consumes nothing, on the strength of two bytes |
| SessionLaws.OverflowRefused | include/manet/protocol/websocket.hpp:198-211 | a fragment that would overflow the message is an error that writes nothing and leaves codec and message alone; any other is appended |
| SessionLaws.OthersIgnored | include/manet/protocol/websocket.hpp:359-366 | frames of other kinds than data, Close and Ping are read and ignored |
| SessionLaws.NothingBeforeConnect | include/manet/protocol/websocket.hpp:137-143 | data before the connect callback is an error that consumes nothing |
| SessionLaws.PingOnTheWire | include/manet/protocol/websocket.hpp:332-358 | the bytes 0x89, length, payload are consumed and answered by a frame that starts with 0x8A and unmasks to the payload |
| SessionLaws.MessageOnTheWire | include/manet/protocol/websocket.hpp:277-299 | the bytes 0x81 or 0x82, length, payload go to the codec as text or binary, with its answer and verdict passed on |
| SessionLaws.FragmentsOnTheWire | include/manet/protocol/websocket.hpp:187-243 | a text message in two fragments, bytes 0x01 and 0x80, goes to the codec once, with the second |
| SessionLaws.ConnectAsks | include/manet/protocol/websocket.hpp:97-115 | connecting sends the request or fails for want of room, and then waits for the matching key |
| SessionLaws.KeyAnswersRequest | src/manet/protocol/websocket.cc:27-83 | the request carries the base64 text of the 16 random bytes drawn, and the key waited for is the base64 text of the digest of that text followed by the 36 bytes of the GUID |
| SessionLaws.AcceptKeyShape | src/manet/protocol/websocket.cc:63-83 | the expected key has 28 bytes and holds no space or line break |
| SessionLaws.KeysDiffer | src/manet/protocol/websocket.cc:27-32 | different nonces give different request keys |
| SessionObjects.WebSocketSession.constructor | include/manet/protocol/websocket.hpp:64-95 | a new session is idle with an empty message |
| SessionObjects.WebSocketSession.OnConnect | include/manet/protocol/websocket.hpp:97-115 | the object's fields and the write buffer change as the connect function says |
| SessionObjects.WebSocketSession.OnData | include/manet/protocol/websocket.hpp:117-143 | the same for data: both buffers, the message buffer, the fields and the verdict |
| SessionObjects.WebSocketSession.AwaitUpgrade | include/manet/protocol/websocket.hpp:121-134 | only a whole and good response starts the listening; otherwise the phase stays |
| SessionObjects.WebSocketSession.DispatchFrame | include/manet/protocol/websocket.hpp:173-264 | one frame is parsed from the read buffer and taken, or nothing happens |
| SessionObjects.WebSocketSession.Take | include/manet/protocol/websocket.hpp:187-243 | fragments are copied into the message buffer in place; the last one is handled and empties it |
| SessionObjects.WebSocketSession.Handle | include/manet/protocol/websocket.hpp:266-366 | codec calls and control replies, written straight into the write buffer |
| SessionObjects.WebSocketSession.OnShutdown | include/manet/protocol/websocket.hpp:145-162 | the object's shutdown is the shutdown function |
| SessionObjects.WebSocketSession.Heartbeat | include/manet/protocol/websocket.hpp:164-170 | the object's heartbeat is an empty ping if it fits |
| Dialing.Dial | include/manet/net/dial.hpp:19-83 | takes the first address that connects or is in progress; every other socket it opened is closed; the error is the last one |
| Transports.PlainRead | include/manet/transport/plain.hpp:36-64 | repeats interrupted reads; delivers bytes exactly on success; end of stream and would-block are told apart |
| Transports.PlainWrite | include/manet/transport/plain.hpp:66-89 | repeats interrupted writes; takes bytes from the front only on success |
| CallOrder.AcceptedIsInOrder | include/manet/reactor/connection.hpp:399-456 | the order every connection keeps is exactly: connect if there is a handler, data or heartbeats, shutdowns of which only the last may be final, at most one teardown |
| Connections.Connection.constructor | include/manet/reactor/connection.hpp:93-112 | a new connection rests, without a socket, with the session of dial zero |
| Connections.Connection.Attach | include/manet/reactor/connection.hpp:114-125 | the first call dials once; later ones change nothing |
| Connections.Connection.DialOverSocket | include/manet/reactor/connection.hpp:114-125 | attaching a connection that has a socket already leaves that socket open and owned by nobody |
| ConnectionRuns.AttachTooLate | include/manet/reactor/connection.hpp:114-190 | stopping and restarting a new connection before attaching it loses the socket of the restart, if there is one |
| Connections.Connection.HandleEvent | include/manet/reactor/connection.hpp:131-144 | keeps `Resting`; the state never moves down; a finished connection is untouched; the edge is used up; a pending connect is left exactly on a writeable, error or hang-up event and fails if the system refuses it; a handshake or shutdown of the transport goes on exactly while its step would block; a drain drops input and rests only after a refused write; nothing is read without a readable edge, and while talking nothing is called or written without new bytes; it takes at most eight steps; on the plain transport a new failure ends in `Closed` exactly if it is one that is overwritten; a farewell is not taken back |
| Connections.Connection.Heartbeat | include/manet/reactor/connection.hpp:146-156 | reaches the protocol exactly in normal operation; its session and its output are kept |
| Connections.Connection.Restart | include/manet/reactor/connection.hpp:158-168 | only a finished connection is dialed again, with a newly made session and everything of the old dial forgotten |
| Connections.Connection.Stop | include/manet/reactor/connection.hpp:171-190 | normal operation ends; a protocol with a shutdown handler is asked, and has said its farewell if it decides at once, unless a fault ended the connection meanwhile; one that is not yet connected is closed; what is left waits only for the transport; no other callback is made |
| Connections.Connection.Steps | include/manet/reactor/connection.hpp:264-320 | at most eight steps, ending at rest, further on or where it began; edges are used up across several states |
| Connections.Connection.Redial | include/manet/reactor/connection.hpp:322-356 | no socket leads to an error, a pending connect to waiting for it, and else straight on |
| Connections.Connection.EnterConnected | include/manet/reactor/connection.hpp:358-397 | the transport's handshake comes first if there is one; an endpoint that cannot be made releases the socket |
| Connections.Connection.EnterProtocol | include/manet/reactor/connection.hpp:399-411 | connect is the first callback, whatever its verdict leads to; afterwards the socket is watched as needed |
| Connections.Connection.ShutdownLoop | include/manet/reactor/connection.hpp:419-450 | asks until the protocol decides or reads nothing; only shutdown and teardown are called |
| Connections.Connection.EnterError | include/manet/reactor/connection.hpp:460-464 | needs evidence from the environment, which is recorded if it is the first failure; the socket is cleared, closed and forgotten |
| Connections.Connection.StepInProgress | include/manet/reactor/connection.hpp:472-506 | leaves the state exactly on a writeable, error or hang-up event |
| Connections.Connection.StepTransport | include/manet/reactor/connection.hpp:508-528 | waits exactly while the handshake would block, then watched; fails exactly when it fails |
| Connections.Connection.ProtocolConsume | include/manet/reactor/connection.hpp:530-555 | while the state stays, exactly the calls of the feeding loop were made, and the session stands where feeding everything received would put it |
| Connections.Connection.StepDrainProtocol | include/manet/reactor/connection.hpp:633-646 | rests only with bytes the transport refused; leaves with the socket open only when everything was sent or the transport reports that the peer has gone; a failed read or a full read buffer leads to closing, not to the error state |
| Connections.Connection.StepCloseTransport | include/manet/reactor/connection.hpp:648-671 | closed exactly on success, error on failure, waiting and watched otherwise |
| Connections.Connection.Arm | include/manet/reactor/connection.hpp:673-698 | the exact interest for each outcome |
| Connections.Connection.Follow | include/manet/reactor/connection.hpp:701-745 | what each verdict leads to: on, to the shutdown handler or else to closing or draining as bytes are left, or to the error state |
| Connections.Connection.FollowClose | include/manet/reactor/connection.hpp:711-738 | a write that fails while a close verdict is followed leads to closing without a socket, not to the error state |
| Connections.Connection.TransportRead | include/manet/reactor/connection.hpp:747-790 | reads until it would block or the state moves on; no byte is lost or kept from the protocol |
| Connections.Connection.AfterRead | include/manet/reactor/connection.hpp:769-788 | what each outcome of a read leads to: again, closing, error, or the watch |
| Connections.Connection.TransportWrite | include/manet/reactor/connection.hpp:792-827 | flushed, or refused and watched, or broken; bytes are conserved |
| Connections.Connection.Teardown | include/manet/reactor/connection.hpp:829-845 | at most one teardown callback, then the watch is cleared and the socket closed once |
| ConnectionRuns.Drive | include/manet/reactor/connection.hpp:114-190 | after any sequence of events, stops, restarts, heartbeats and further attaches, each of which is passed on: sockets and bytes balance, callbacks are in order, nothing stalls, state and socket agree, state and first failure agree, and the session is that of feeding everything received, up to what heartbeats change without effect on reading |
| ConnectionRuns.RestingOrdersCalls | include/manet/reactor/connection.hpp:701-745 | the callbacks of a dial have the documented shape, with at most one teardown at the end |
| Reactors.Reactor.Init | include/manet/reactor.hpp:68-87 | every connection is attached and dialed once |
| Reactors.Reactor.HandleEdge | include/manet/reactor.hpp:121-131 | the edge does to its connection what `HandleEvent` says; exactly a connection that just closed is dialed again, unless the reactor stops; a finished or failed one is not |
| Reactors.Reactor.Handle | include/manet/reactor.hpp:104-138 | keeps the reactor's invariant; at the first kill the connections are remembered, and from then on nothing is dialed or called except to shut down; every event is recorded with the connections as it found them; an edge reaches its connection and no other |
| Reactors.Reactor.Tick | include/manet/reactor.hpp:140-144 | every 64th round each protocol in normal operation gets one heartbeat, and in no other round |
| Reactors.Reactor.CheckAllDone | include/manet/reactor.hpp:149-155 | true exactly when every connection is closed or failed |
| Reactors.Reactor.StopAll | include/manet/reactor.hpp:165-171 | every connection leaves normal operation, calmly; one with a prompt shutdown handler parts |
| Reactors.Reactor.Loop | include/manet/reactor.hpp:93-147 | keeps the invariant for any batch of events or a failed poll; the events join the record, and what is remembered is what the first kill in it found |
| Reactors.Reactor.Run | include/manet/reactor.hpp:93-171 | over any rounds, all of whose events are recorded: calm since the first kill among them, whose finding is what is remembered; unless polling failed, a stopped network means every socket was closed |
| WebSocketRuns.UpgradeThenListen | include/manet/protocol/websocket.hpp:121-136 | an acceptable response only switches the session to listening; the rest is fed as if alone |
| WebSocketRuns.UpgradeRefused | include/manet/protocol/websocket.hpp:121-136 | an unacceptable response is an error that leaves the session waiting; an incomplete one is waited for |
| WebSocketRuns.UpgradeThenTalk | include/manet/protocol/websocket.hpp:117-264 | upgrade, reassembly of any messages and pings together, for every chunking of the whole stream |
| WebSocketRuns.ConsumeIsFeed | include/manet/reactor/connection.hpp:530-555 | what the connection's consume loop does to a WebSocket session is what feeding does, while no call lacks room |
| Feedings.FedNext | include/manet/reactor/connection.hpp:530-555 | one data callback of the consume loop keeps the session in step with a shadow that is fed everything at once, with full room and no heartbeats |
| Feedings.FedFresh | include/manet/reactor/connection.hpp:747-790 | bytes that arrive behind unread ones can be fed as if all had come together |
| WebSocketRuns.DrawsDoNotMatter | include/manet/protocol/websocket.hpp:117-366 | sessions that differ only in the random bytes drawn read the same way and stay so, and a heartbeat makes no other difference |
| WebSocketRuns.ConnectionIsFeed | include/manet/reactor/connection.hpp:530-555 | in normal operation the unread bytes and the session, but for the random bytes drawn, are those of feeding every received byte at once, if room was never short; without heartbeats the whole session and the output are |
| WebSocketRuns.EnoughRoom | include/manet/protocol/websocket.hpp:266-366 | a data callback with the room its reply needs is not short of room |
| WebSocketRuns.MessagesArrive | include/manet/protocol/websocket.hpp:97-264 | a connection that received the response to its own request and then any messages and pings has given its codec each message once and in order and has nothing left to read; without heartbeats it wrote exactly its request, the pongs and the codec's answers |
| WebSocketRuns.DrainedMeansGoodbye | src/manet/protocol/websocket.cc:271-278 | a connection that shut its protocol down and left draining before anything failed has sent everything, ending with a Close frame of the chosen code |
| WebSocketRuns.StopRun | include/manet/reactor/connection.hpp:171-190 | the same over any run of events after a stop in normal operation, on every transport: while its shutdown is pending, when it is closed, and when closing it failed |
| WebSocketRuns.KillMeansGoodbye | include/manet/reactor.hpp:104-171 | the same of every connection of a reactor that was in normal operation when the kill came |

## Left out

- The epoll and F-Stack back ends: thin wrappers; they appear as arbitrary results and as the watched interest of a socket.
- TLS: its endpoint is any transport with a handshake and a shutdown step; OpenSSL itself, and calls on an endpoint already destroyed, carry no claim; nor does the final state of a TLS connection after a failure. `destroy` is not modelled.
- SHA-1, the random source and name resolution: function parameters and an arbitrary list of attempts.
- The text of the upgrade request: any function of the request key; only the key and the expected answer are modelled.
- Rules of RFC 6455 the code does not enforce: a single Close frame, unknown opcodes, minimal lengths, stray continuations, control frames in fragments.
- A codec that reads from the receive buffer itself: codec handlers here get the payload and the room and return what they write.
- The two buffers inside `Connection` are held as queue values; that `Buffer` refines them in place is proved separately, and nothing else shares them.
- Connections of different protocol types in one reactor: all connections of a model reactor share one session type.
- Connections.Connection.Teardown: the call to the endpoint's `destroy` is left out.
- Connections.Connection.TransportRead: a transport that reports success forever is not modelled; every call is given some finite number of successful reads.
- Connections.Connection.Attach: asks that a connection not yet attached has no socket; the other case is `DialOverSocket`, and how a connection goes on after it is not modelled.
- Frames.ParseFrame: for a wrapped length it says what the code reports, but not the bytes of the payload, which lie outside the input.
- SessionLaws.LawfulWebSocket: a frame with a wrapped length is answered with an error here, while the code passes on a view outside its input.
- SessionObjects.WebSocketSession.OnData: the same.
- SessionObjects.WebSocketSession.DispatchFrame: the same.
- SessionLaws.ChunkingDoesNotMatter: speaks of the same streams, those without a wrapped length.
- Overflow of the 64-bit round counter: it wraps at a multiple of 64, so heartbeats are unaffected.
- Logging, hex dumps, `to_string` functions, concept checks and the examples: diagnostics and plumbing.
