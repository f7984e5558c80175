# A verified model of the SOCKS5 proxy

The repository is a SOCKS5 proxy server (RFC 1928 with the username/password authentication of
RFC 1929). This project models the logic above its network library and proves properties of it
over all inputs, all runs and all interleavings:

- **One session** (`SessionSpec`, `SessionRuns`, `SessionReach`, `Session`, `Machine`). The
  handshake automaton, the tracker that turns its callbacks into bytes, the session that calls the
  authorizer and the outbound connector, and the stream proxy that takes over both sockets.
  `Session` holds the classes with their fields, their nested callbacks and the changes of a connection's user;
  `SessionSpec.Step` says in one function what a network event does; each method is proved
  against it and `Serve` against `Run`. `SessionRuns` proves what holds of every run:
  transparency of the relay, authorization of every outbound connection down to the lines of the
  credential file, finality of a refusal. `SessionReach` proves which events lead to the relay,
  as an if and only if, and what becomes of a session where they do not. `Machine` proves what
  holds of the automaton alone.
- **The wire codec** (`Wire`, `WireBytes`, `SocksDecoder`, `SocksEncoder`, over `HostBytes` and
  `SocksTypes`). Layouts are concatenations in `Wire`, and plain bytes in `WireBytes`; the decoder
  and encoder methods work by offsets in a buffer and are proved to agree with them. Both round
  trips hold with their exact exceptions, and framing is unambiguous.
- **The blocking queue** (`ConcurrentQueue`, `QueueHistory`), a step system over any number of
  threads: safety in every interleaving (order, delivery, no lost wake-up), linearizability,
  absence of other blocking, bounded progress, and the run-once consumer.
- **Supporting algorithms**: `StringUtils` and the credential table built with it (`Authorizer`,
  `CredentialFile`), the cursors and typed reads over them (`MemCursor`, `Serialization`), the
  signal connections as an ordered relation (`SignalStorage`), and the consumer loop of the signal
  queue (`SignalHandler`, and among other threads `HandlerLoop`).

`dafny verify dfyconfig.toml` checks everything.

## Conventions

- The network's answers are parameters of the event that provokes them: whether a `send`
  succeeds (at most one buffer is sent per event), whether an outbound connection can be
  created, and the local address it reports. Theorems that need a send to succeed say so.
- A session end is terminal: no event is delivered afterwards. Code that is still on the stack
  when the session ends runs on as it is written, so an `onConnected` whose reply could not
  be sent still builds the proxy in a session that has ended.
- `Machine.Output` histories, `auths`, the `connects` log and the history of a signal storage
  are records of calls made; the program stores none of them.
- `std::get` in the encoders demands that an existing type byte names the alternative held
  (`SocksTypes.Gettable`); the decoder establishes it, and it is assumed of the local address.
- `memcpy` between integers and buffers is one fixed bijection (`HostBytes`, little endian).

## Where the code departs from its standards or from what one would expect

- The authentication reply carries version 0x05 (src/SocksTypes.h:141), section 2 of RFC 1929
  has 0x01. `SessionRuns.Transparency` states the bytes as they are sent.
- Replies that report a failure carry `SocksAddress{}`, whose type byte 0 the encoder refuses
  (src/SocksEncoder.cpp:152), so they never reach the wire: the session just ends
  (`SessionRuns.OnlyGrantedRepliesAreSent`).
- A proxy does not mean that the granted reply is on the wire: `onConnected` builds it whatever
  became of the reply (src/Session.cpp:60-63). `SessionReach.ProxyWithoutReply` says exactly when
  it is, `SessionReach.ProxyBuiltWithoutReply` is a run where it is not.
- A failed outbound connect is not noticed (src/Session.cpp:66-67): the session waits until the
  client acts (`SessionReach.FailedConnectWaits`).
- A client that sends anything before the command reply loses its session
  (`SessionReach.EarlyDataEnds`): data is not kept for the relay.
- The command encoder has no check on the length of a domain (src/SocksEncoder.cpp:123-129), the
  reply encoder has one (src/SocksEncoder.cpp:174). `Wire.CommandDecodeAfterEncode` and
  `Wire.AddressLayoutsAgree` give the exact consequence.
- The handshake reads one message per buffer and does not reassemble
  (`Machine.FragmentFails`), although the transport is a byte stream.
- The machine alone takes a second authentication result after a refusal
  (`Machine.RefusalIsNotFinalHere`); only the session makes a refusal final.
- `disconnectByHash` leaves an empty list under its key, `disconnect` does not
  (`SignalStorage.KeyLingersExactly`).
- The EmptySignal error cannot occur: only `push` fills the queue, with objects it creates
  (src/libratel/NQSignals/Private/SignalHandler.h:24-28), and fed like that no run ends on a null
  pointer (`SignalHandler.SignalHandler.Run`, `Fed`). The null branches are modelled as written.
- `stop` wakes nobody: a loop asleep in `pop` stays there until the next push, whose signal is
  still called (`HandlerLoop.StopWakesNobody`, `HandlerLoop.StoppedStays`).

## Model

| member | source | states |
|---|---|---|
| `SessionRuns.Transparency` | src/Session.cpp:20-64 | End to end, over every run: a command reply is on the wire if and only if some event was the handover; then the three client buffers before it were a greeting offering login/password, accepted credentials and a stream command, the client has been sent exactly 05 02, 05 00, then 05 00 00 with the type byte (01, 03 and a length, or 04), the address and the port that the destination reported, then the destination's buffers since, the destination exactly the client's, and closing either side leaves both connections closed and without user. |
| `SessionRuns.OpenRelayIsTransparent` | src/TcpStreamProxy.cpp:11-26 | While both sides are open and sends succeed, the byte stream to each side is the exact concatenation of what came from the other, after the preamble of three replies. |
| `SessionRuns.HandoverIsProxyStart` | src/Session.cpp:50-64 | The handover is exactly the event at which a live session gets its stream proxy, and no other event is. |
| `SessionRuns.RelayAfterHandover` | src/DirectedProxyConnection.cpp:9-42 | From the handover on, every further event extends the relay by what it carries and nothing else; a close ends the session once and releases both connections. |
| `SessionRuns.FindHandover` | src/Session.cpp:50-64 | Whenever three or more buffers were sent to the client, the run has a handover: constructs the event. |
| `SessionRuns.RelayCarriesEverything` | src/TcpStreamProxy.cpp:11-26 | With both sides open and successful sends, the relay drops no buffer and keeps the order. |
| `SessionRuns.OutboundIsAuthorized` | src/Session.cpp:20-40 | In every run an outbound connection is requested at most once, the authorizer asked at most once, and a request is made only after a first buffer 05, n, methods with 02 among them, an accepted second buffer 01, length, user, length, password, and a third buffer that is 05 01 00 followed by exactly the type byte, address and port that the connection is requested to. |
| `SessionRuns.AskedInBytes` | src/StateMachine.cpp:80-84 | The address handed to the connector is the one in the bytes of the command, port included. |
| `SessionRuns.OutboundIsGrantedByFile` | src/SocksLoginPassAuthorizer.cpp:13-43 | The same down to the credential file: the last line that names the user carries the password that was sent. |
| `SessionRuns.RejectionIsFinal` | src/InConnTracker.cpp:17-22 | After a refusal, no later event sequence yields a success reply, an outbound connection, a proxy or a command reply. |
| `SessionRuns.OnlyGrantedRepliesAreSent` | src/SocksEncoder.cpp:146-153 | All that can be on the client's wire; replies that report a failure carry the empty address, which the encoder refuses. |
| `SessionRuns.EveryRun` | src/Session.cpp:15-76 | The session invariant (what was asked, connected and sent, and who uses each connection) holds after every sequence of events. |
| `SessionRuns.EndedIsFrozen` | src/Session.cpp:69-76 | Nothing changes once the session has ended. |
| `SessionRuns.StepRunsMachine` | src/StateMachine.cpp:64-117 | The nested callbacks of one event leave the machine where a sequence of plain calls would. |
| `SessionRuns.SessionTrace` | src/StateMachine.cpp:10-117 | In every run of the session the machine has the state and trace of some run of non-nested calls, so it stays in its trace language. |
| `SessionReach.ShakingExactly` | src/Session.cpp:15-76 | Told by what arrives alone: a session is alive and without proxy if and only if the client stayed, the first two replies could be sent, the connection could be created, the destination has not reported a connection after the third buffer asked for one, and the client's buffers are the beginning of a good handshake. |
| `SessionReach.PendingExactly` | src/Session.cpp:20-34 | A session waits for the destination if and only if such a handshake is complete, and then it has asked for exactly the address whose bytes the third buffer carries. |
| `SessionReach.HandoverExactly` | src/Session.cpp:50-64 | An event is the handover if and only if the events before it are a complete undisturbed good handshake and it reports an encodable local address whose reply is sent. |
| `SessionReach.HandoverIsUnique` | src/DirectedProxyConnection.cpp:3-17 | A run has at most one handover. |
| `SessionReach.StraightHandshake` | src/StateMachine.cpp:10-85 | Three good buffers in a row do bring the session to wait for the destination. |
| `SessionReach.ProxyBuiltExactly` | src/Session.cpp:50-64 | A proxy is built at an event if and only if the session waits for the destination and the event reports a local address, whether or not the reply goes out. |
| `SessionReach.ProxyWithoutReply` | src/Session.cpp:58-63 | Where a proxy is built, the granted reply is on the wire if and only if it could be encoded and sent; otherwise the session has ended for good, with a proxy and two replies. |
| `SessionReach.ProxyRegardless` | src/Session.cpp:58-63 | The same of one event, in every state the invariant allows. |
| `SessionReach.ProxyBuiltWithoutReply` | src/Session.cpp:60-63 | A concrete run with a proxy and no granted reply. |
| `SessionReach.EarlyDataEnds` | src/StateMachine.cpp:38-40 | From every run that waits for the destination, one more client buffer of any content ends the session with a protocol error and nothing is relayed. |
| `SessionReach.EveryBufferIsAnswered` | src/StateMachine.cpp:10-101 | Every client buffer of the handshake, good or bad, puts exactly its answer on the wire when the send succeeds: 05 02, 05 ff (no login/password offered), 05 00, 05 01, or nothing. |
| `SessionReach.FailureStatuses` | src/Session.cpp:20-64 | The machine is told 7 for another command than a stream, 1 when no connection can be created, 4 without a local address, 0 with one. |
| `SessionReach.FailedConnectWaits` | src/Session.cpp:66-67 | After a failed connect the session waits: however often the destination's side closes, nothing is sent, nobody is told and nothing else changes. |
| `Machine.TraceLanguage` | src/StateMachine.cpp:10-117 | Over any calls the callbacks form a prefix of Greeting(2) Request Refusal* Accept StartProxy Reply followed only by errors, or Greeting(ff) followed by at least one error, and the state is the one that the word determines. |
| `Machine.RankMonotone` | src/StateMachine.cpp:10-85 | The rank never decreases, every client buffer raises it strictly unless the machine has failed, and a failed machine stays failed and reports one error per call. |
| `Machine.AtMostThreeBuffers` | src/StateMachine.cpp:10-42 | In any run of any length at most three client buffers are accepted. |
| `Machine.FragmentFails` | src/StateMachine.cpp:10-42 | A proper prefix or extension of an acceptable message is a protocol error: the machine does not reassemble. |
| `Machine.SynchronousEqualsDeferred` | src/StateMachine.cpp:64-117 | An owner that answers inside the callback and one that answers with the next call end in the same state with the same callbacks, for all runs. |
| `Machine.OneAnswer` | src/StateMachine.cpp:69-70 | One nested answer equals the same answer given after the call. |
| `Machine.RefusalIsNotFinalHere` | src/StateMachine.cpp:97-100 | The machine alone accepts a second result after a refusal (counterexample to finality without the session). |
| `Machine.FailKeepsStateTrace` | src/StateMachine.cpp:144-153 | A protocol error extends the trace by an error and is absorbing in the trace language. |
| `Wire.GreetingAccepted` | src/SocksDecoder.cpp:28-50 | The greeting decoder accepts a buffer as a message exactly when the message is acceptable and the buffer is its layout. |
| `Wire.CredentialsAccepted` | src/SocksDecoder.cpp:52-72 | The same for credentials. |
| `Wire.CommandAccepted` | src/SocksDecoder.cpp:74-176 | The command decoder accepts a buffer as a message exactly when the message is acceptable and the buffer is its layout, all three address forms: accepted buffers and acceptable commands are in bijection. |
| `WireBytes.GreetingInBytes` | src/SocksDecoder.cpp:28-50 | In plain bytes: a greeting is 05, the number of methods, and that many bytes out of 00, 01 and 02; nothing else is accepted. |
| `WireBytes.CredentialsInBytes` | src/SocksDecoder.cpp:52-72 | Credentials are 01, a length, the user, a length, the password. |
| `WireBytes.CommandInBytes` | src/SocksDecoder.cpp:74-176 | A command is 05, one of 01, 02 and 03, 00, then 01 and four bytes, 03, a length and a name, or 04 and sixteen bytes, then the port. |
| `WireBytes.DecodedForms` | src/SocksDecoder.cpp:93-176 | What each of the three forms decodes to, for every command, address and port. |
| `WireBytes.OfferInBytes` | src/SocksDecoder.cpp:28-50 | A greeting offers login/password exactly when 02 is among its method bytes. |
| `WireBytes.GreetingWritten` | src/SocksEncoder.cpp:25-49 | What the encoder writes for a greeting, byte by byte, and exactly when it refuses. |
| `WireBytes.CredentialsWritten` | src/SocksEncoder.cpp:67-83 | The same for credentials. |
| `WireBytes.RepliesWritten` | src/SocksEncoder.cpp:51-95 | The same for the two replies of the authentication. |
| `WireBytes.CommandWritten` | src/SocksEncoder.cpp:97-144 | The same for a command whose domain fits. |
| `WireBytes.CommandReplyWritten` | src/SocksEncoder.cpp:146-193 | The same for a command reply. |
| `WireBytes.GrantWritten` | src/SocksEncoder.cpp:146-193 | The granted reply for each form of address, byte by byte, and exactly when it is refused. |
| `Wire.GreetingDecodeAfterEncode` | src/SocksEncoder.cpp:25-49 | An encoded greeting decodes to itself unless it has more than 255 methods or contains 0xff; then it is rejected, never misread. |
| `Wire.CredentialsDecodeAfterEncode` | src/SocksEncoder.cpp:67-83 | Encoded credentials always decode to themselves. |
| `Wire.CommandDecodeAfterEncode` | src/SocksEncoder.cpp:97-144 | An encoded command decodes to itself unless its domain exceeds 255 bytes; the truncated length byte is never read back as another command. |
| `Wire.GreetingEncodeAfterDecode` | src/SocksDecoder.cpp:28-50 | Every accepted greeting is reproduced byte for byte by the encoder, except one with no methods. |
| `Wire.CredentialsEncodeAfterDecode` | src/SocksDecoder.cpp:52-72 | Every accepted credentials buffer is reproduced, except with an empty user or password. |
| `Wire.CommandEncodeAfterDecode` | src/SocksDecoder.cpp:74-176 | Every accepted command buffer is reproduced. |
| `Wire.AddressLayoutsAgree` | src/SocksEncoder.cpp:146-193 | The command encoder and the reply encoder, written separately, differ in byte 1 only; only the reply encoder refuses a domain longer than 255 bytes. |
| `Wire.PrefixFree` | src/SocksDecoder.cpp:28-176 | No accepted message is a proper prefix of another of its kind. |
| `Wire.UniqueFraming` | src/SocksDecoder.cpp:28-176 | A stream splits into accepted messages of the given kinds, or of the first few of them, in at most one way: the number of messages is determined too. |
| `Wire.MessagesAreNotEmpty` | src/SocksDecoder.cpp:28-176 | Only an empty conversation is an empty stream. |
| `SocksDecoder.DecodeGreeting` | src/SocksDecoder.cpp:28-50 | The method fills a fresh message method by method and returns exactly what the wire format prescribes. |
| `SocksDecoder.DecodeCredentials` | src/SocksDecoder.cpp:52-72 | The same for credentials, length bytes promoted to int. |
| `SocksDecoder.DecodeCommand` | src/SocksDecoder.cpp:74-114 | The same for commands; refuses exactly the buffers the wire format refuses. |
| `SocksDecoder.DecodeIPv4` | src/SocksDecoder.cpp:116-125 | Sets the IPv4 alternative and nothing else, or refuses and changes nothing. |
| `SocksDecoder.DecodeDomain` | src/SocksDecoder.cpp:127-139 | The same for a length-prefixed domain. |
| `SocksDecoder.DecodeIPv6` | src/SocksDecoder.cpp:141-149 | The same for IPv6. |
| `SocksDecoder.DecodePort` | src/SocksDecoder.cpp:151-176 | Sets the port exactly when the buffer ends right after it. |
| `SocksEncoder.EncodeGreeting` | src/SocksEncoder.cpp:25-49 | Leaves exactly the layout in the caller's buffer, whatever was in it; a refusal leaves the buffer as it was. |
| `SocksEncoder.EncodeGreetingReply` | src/SocksEncoder.cpp:51-65 | The same for the greeting reply. |
| `SocksEncoder.EncodeCredentials` | src/SocksEncoder.cpp:67-83 | The same for credentials, written with two copies at computed offsets. |
| `SocksEncoder.EncodeCredentialsReply` | src/SocksEncoder.cpp:85-95 | The same for the authentication reply. |
| `SocksEncoder.EncodeCommand` | src/SocksEncoder.cpp:97-144 | The same for the command, with its staged resizes and truncated length byte. |
| `SocksEncoder.EncodeCommandReply` | src/SocksEncoder.cpp:146-193 | The same for the command reply; a domain that is too long is refused only after the header was written, so the buffer then holds the header. |
| `Session.Serve` | src/Session.cpp:3-64 | The objects, driven through their nested callbacks by any sequence of network events, end in the state `SessionSpec.Run` gives, so every theorem about runs holds of them. |
| `Session.Deliver` | src/Session.cpp:15-76 | One event through the objects is one step of the event automaton. |
| `Session.StateMachine.ProcessBuffer` | src/StateMachine.cpp:10-42 | Decoding, callbacks, nested answers and their effects on both connections amount to the handshake step of the automaton. |
| `Session.StateMachine.ProcessGreetingMsg` | src/StateMachine.cpp:44-62 | Replies with the chosen method and moves on, or replies ff and fails; in another state it is a protocol error. |
| `Session.StateMachine.ProcessPassAuthMsg` | src/StateMachine.cpp:64-71 | The answer comes back inside the callback, in the state set before it. |
| `Session.StateMachine.ProcessCommandMsg` | src/StateMachine.cpp:73-85 | Requests the proxy for the decoded address; a refusal comes back inside the callback. |
| `Session.StateMachine.ProcessPassAuthResult` | src/StateMachine.cpp:87-101 | Sends the result and moves on only on success; in another state it is a protocol error. |
| `Session.StateMachine.ProcessStartProxyResult` | src/StateMachine.cpp:103-117 | Sends the reply, then settles in started or failed; in another state it is a protocol error. |
| `Session.StateMachine.ReportError` | src/StateMachine.cpp:144-153 | Sets the error state before telling the owner, which ends the session. |
| `Session.InConnTracker.constructor` | src/InConnTracker.cpp:3-10 | Builds the machine and becomes the user of the client connection. |
| `Session.InConnTracker.OnProxyStarted` | src/InConnTracker.cpp:12-15 | Hands the answer to the machine. |
| `Session.InConnTracker.OnAuthRequestCompleted` | src/InConnTracker.cpp:17-22 | Hands the result to the machine, then ends the session on a refusal. |
| `Session.InConnTracker.SendGreetingResponse` | src/InConnTracker.cpp:24-30 | Exactly the encoded greeting reply is sent, or the session ends. |
| `Session.InConnTracker.SendPassAuthResponse` | src/InConnTracker.cpp:37-43 | Exactly the encoded authentication reply is sent, or the session ends. |
| `Session.InConnTracker.SendCommandResponse` | src/InConnTracker.cpp:50-59 | Exactly the encoded command reply is sent, or the session ends. |
| `Session.InConnTracker.SendEncoded` | src/InConnTracker.h:39-53 | A message that cannot be encoded or sent ends the session; otherwise exactly one buffer goes out. |
| `Session.InConnTracker.OnReceive` | src/InConnTracker.cpp:66-69 | A client buffer reaches the machine with its effects. |
| `Session.InConnTracker.OnConnectionClosed` | src/InConnTracker.cpp:74-77 | The client closing ends the session. |
| `Session.Session.constructor` | src/Session.cpp:3-13 | A fresh session is in the initial state of the automaton, with the tracker as user of the client connection. |
| `Session.Session.OnStartProxy` | src/Session.cpp:20-34 | Requests one connection to the address, or answers with a failure and ends. |
| `Session.Session.OnRequestPassAuth` | src/Session.cpp:36-40 | Asks the authorizer once and reports its verdict to the tracker. |
| `Session.Session.OnConnected` | src/Session.cpp:50-64 | Answers with the local address and puts the proxy on both connections, or answers with a failure and ends. |
| `Session.Session.DestroySelf` | src/Session.cpp:69-76 | Drops the proxy, which releases both connections, gives up the outbound connection, then reports the end. |
| `Session.TcpStreamProxy.constructor` | src/TcpStreamProxy.cpp:3-9 | The two directed connections become users of their sockets. |
| `Session.TcpStreamProxy.OnDataReceived` | src/TcpStreamProxy.cpp:11-26 | A buffer from one side goes to the other side and nowhere else. |
| `Session.TcpStreamProxy.OnDisconnected` | src/TcpStreamProxy.cpp:31-46 | Closes the peer, then the session ends. |
| `Session.DirectedProxyConnection.constructor` | src/DirectedProxyConnection.cpp:3-10 | Takes over as the user of the connection. |
| `Session.DirectedProxyConnection.Release` | src/DirectedProxyConnection.cpp:12-17 | Leaves the connection closed and without a user. |
| `Session.DirectedProxyConnection.OnReceive` | src/DirectedProxyConnection.cpp:29-32 | Forwards a buffer in its direction. |
| `Session.DirectedProxyConnection.OnConnectionClosed` | src/DirectedProxyConnection.cpp:39-42 | Forwards the close in its direction. |
| `ConcurrentQueue.EveryRunSafe` | src/libratel/ConcurrentQueue.h:15-48 | For any number of threads and every interleaving, with spurious wake-ups and barging: mutual exclusion; the values pushed are the values removed, in order, followed by the queue; every removed value is returned once, to the call that removed it; and if someone waits, the queue is no longer than the woken poppers that have not rechecked plus the pushers that have not notified. |
| `ConcurrentQueue.SafeFromStart` | src/libratel/ConcurrentQueue.h:15-48 | All four hold after every run of any number of threads on a new queue. |
| `ConcurrentQueue.OneStepSafe` | src/libratel/ConcurrentQueue.h:15-48 | Each step of each thread keeps these four. |
| `ConcurrentQueue.KeepsWakeUps` | src/libratel/ConcurrentQueue.h:15-42 | The wake-up bound is kept by every step: append, notify after unlock, wait, wake, recheck. |
| `ConcurrentQueue.KeepsFifo` | src/libratel/ConcurrentQueue.h:15-42 | First in, first out across `push`, `pop` and `tryPop`. |
| `ConcurrentQueue.KeepsDelivered` | src/libratel/ConcurrentQueue.h:23-42 | A removed value goes to exactly one caller. |
| `ConcurrentQueue.KeepsMutualExclusion` | src/libratel/ConcurrentQueue.h:17-47 | The mutex is held by at most the thread in a critical section. |
| `ConcurrentQueue.SettledExactly` | src/libratel/ConcurrentQueue.h:15-48 | The calls under way are stuck exactly when every thread is idle or asleep in `wait`: no other blocking. |
| `ConcurrentQueue.NobodySleepsOnWork` | src/libratel/ConcurrentQueue.h:32-42 | When they can go no further, the queue is empty or nobody sleeps. |
| `ConcurrentQueue.InternalRunsAreBounded` | src/libratel/ConcurrentQueue.h:15-48 | Without new calls and spurious wake-ups every run ends within a computed number of steps. |
| `ConcurrentQueue.SettlesEventually` | src/libratel/ConcurrentQueue.h:15-48 | From every reachable state the calls can be run to such an end. |
| `ConcurrentQueue.SpuriousWakeUp` | src/libratel/ConcurrentQueue.h:35-41 | A waiting thread that wakes without cause leaves everything as it was if the queue is empty, and takes the front if not. |
| `ConcurrentQueue.NotifyWakesOne` | src/libratel/ConcurrentQueue.h:20 | A notification wakes any one waiting thread, and none only if none waits. |
| `ConcurrentQueue.OnceNeverBlocks` | src/libratel/NQSignals/Private/SignalHandler.cpp:40-49 | As the only consumer the run-once loop never blocks in `pop`, in any run from a new queue, whatever is pushed concurrently. |
| `ConcurrentQueue.OnceInit` | src/libratel/NQSignals/Private/SignalHandler.cpp:40-49 | A new queue with any consumer satisfies what the run-once loop relies on. |
| `HandlerLoop.CalledInPushOrder` | src/libratel/NQSignals/Private/SignalHandler.cpp:51-69 | The consumer loop among any number of pushers, in every interleaving: what was pushed is what has been called, in that order, then the signal in hand, then the queue. |
| `HandlerLoop.StopWakesNobody` | src/libratel/NQSignals/Private/SignalHandler.cpp:28-31 | A loop asleep when no push is under way sleeps on through any events, stops included, until a push begins. |
| `HandlerLoop.StoppedStays` | src/libratel/NQSignals/Private/SignalHandler.cpp:28-57 | After a stop at most one more signal is called, and only when the loop was already taking one. |
| `HandlerLoop.NoStopNoLeaving` | src/libratel/NQSignals/Private/SignalHandler.cpp:51-55 | In no run without a stop does the loop leave. |
| `HandlerLoop.LeavesOnlyStopped` | src/libratel/NQSignals/Private/SignalHandler.cpp:51-55 | The loop leaves only with the run flag down, and only a stop lowers it. |
| `HandlerLoop.TestDecides` | src/libratel/NQSignals/Private/SignalHandler.cpp:51-55 | At the test a stopped loop leaves for good, another one takes the next signal. |
| `HandlerLoop.NoSignalIsForgotten` | src/libratel/NQSignals/Private/SignalHandler.cpp:51-69 | After any run without a stop, the calls under way and the loop can go on until every signal that was pushed has been called. |
| `HandlerLoop.ProgressIsBounded` | src/libratel/NQSignals/Private/SignalHandler.cpp:51-69 | Whatever the schedule, without new pushes, stops and spurious wake-ups they come to an end within a computed number of steps. |
| `HandlerLoop.ProgressIsPossible` | src/libratel/NQSignals/Private/SignalHandler.cpp:51-69 | And they end only when the loop has left or everything has been called. |
| `QueueHistory.EveryRunLinearizable` | src/libratel/ConcurrentQueue.h:15-48 | Linearizability, for any number of threads and every interleaving: the moments at which `push`, `pop`, `tryPop` and `empty` take effect replay as a legal run of a sequential queue that leaves the queue's contents, a `tryPop` that found nothing and the flag of `empty` included. |
| `QueueHistory.EffectWithinCall` | src/libratel/ConcurrentQueue.h:15-48 | Each return belongs to a call of the same thread that took effect once in between, with the result returned. |
| `QueueHistory.RealTimeOrder` | src/libratel/ConcurrentQueue.h:15-48 | A call that had returned before another one started took effect first. |
| `QueueHistory.StepIsExplained` | src/libratel/ConcurrentQueue.h:15-48 | Every step of every thread, wake-ups included, keeps the history legal and the calls in order. |
| `StringUtils.StringSplit` | src/libratel/StringUtils.cpp:4-20 | The loop over find and substr terminates for a non-empty delimiter and returns the pieces. |
| `StringUtils.LoopEndsExactly` | src/libratel/StringUtils.cpp:12-17 | The loop ends if and only if the delimiter is not empty. |
| `StringUtils.EmptyDelimiterGoesOn` | src/libratel/StringUtils.cpp:12-17 | With an empty delimiter any number of rounds leaves the loop at the same place. |
| `StringUtils.JoinOfSplit` | src/libratel/StringUtils.cpp:4-20 | Joining the pieces gives the input back. |
| `StringUtils.PiecesAreFree` | src/libratel/StringUtils.cpp:4-20 | No piece contains the delimiter. |
| `StringUtils.SplitOfJoin` | src/libratel/StringUtils.cpp:4-20 | Splitting a joined list returns the list if and only if no delimiter starts early in a piece followed by one. |
| `StringUtils.OneCharacterDelimiter` | src/libratel/StringUtils.cpp:4-20 | For a one-character delimiter that is exactly: no piece contains it. |
| `StringUtils.LongDelimiterLosesPieces` | src/libratel/StringUtils.cpp:4-20 | A longer delimiter breaks this direction: a concrete list of delimiter-free pieces that comes back different. |
| `StringUtils.FindIsFirst` | src/libratel/StringUtils.cpp:8 | What `find` returns is the first occurrence. |
| `Authorizer.TableIsBackwardScan` | src/SocksLoginPassAuthorizer.cpp:19-26 | A user and password are accepted exactly when the last line with at least two fields and that user as first field has that password as second field. |
| `Authorizer.Open` | src/SocksLoginPassAuthorizer.cpp:5-11 | For every file, the constructed authorizer accepts exactly that; construction fails exactly when the file cannot be opened. |
| `CredentialFile.LinesOfTexts` | src/SocksLoginPassAuthorizer.cpp:19-20 | The lines of a file of texts without newline bytes, each ended by 0a but perhaps the last, are exactly these texts. |
| `CredentialFile.EveryFileIsTexts` | src/SocksLoginPassAuthorizer.cpp:19-20 | Every file is such a one, so what its lines are is settled. |
| `CredentialFile.LinesAreLines` | src/SocksLoginPassAuthorizer.cpp:20 | No line contains a newline byte. |
| `CredentialFile.FieldsOfLine` | src/SocksLoginPassAuthorizer.cpp:22 | The fields of a line are what stands between its 2c bytes. |
| `CredentialFile.FileOfEntries` | src/SocksLoginPassAuthorizer.cpp:13-43 | A file of pairs user, 2c, password, 0a accepts exactly the last pair of each user. |
| `Authorizer.SocksLoginPassAuthorizer.ReadFile` | src/SocksLoginPassAuthorizer.cpp:13-28 | The line loop enters the lines of the file in order; an unreadable file changes nothing. |
| `Authorizer.SocksLoginPassAuthorizer.GetLine` | src/SocksLoginPassAuthorizer.cpp:20 | Delivers the bytes up to the next 0a, or to the end of the file, without it, and stops right after. |
| `Authorizer.SocksLoginPassAuthorizer.AuthUserPassword` | src/SocksLoginPassAuthorizer.cpp:35-43 | Accepts exactly the stored pair. |
| `MemCursor.MovedExactly` | src/libratel/MemReader.cpp:16-70 | Exactly when each movement is accepted and to which offset it leads; the unsigned comparison refuses a negative result. |
| `MemCursor.AccessCheckExactly` | src/libratel/MemReader.cpp:46-47 | The bounds check of an access is right exactly when the 64-bit sum does not overflow. |
| `MemCursor.CursorStaysInside` | src/libratel/MemReader.cpp:16-70 | No sequence of reads, writes and shifts, negative ones included, takes the cursor out of [0, size]. |
| `MemCursor.WriteThenRead` | src/libratel/MemWriter.cpp:10-47 | Any sequence of typed values that was written successfully from any start is read back identically by the same-typed reads; it fits exactly when the widths do. |
| `MemCursor.WriteAll` | src/libratel/MemWriter.cpp:10-38 | Successful writes leave the images one after the other and the cursor behind the last. |
| `MemCursor.ReadAll` | src/libratel/MemReader.cpp:24-52 | Reading those types returns those values and ends at the same offset. |
| `MemCursor.ScalarImageInjective` | src/libratel/MemWriter.cpp:10-28 | Values of one type have different images. |
| `MemCursor.ScalarsInBytes` | src/libratel/MemWriter.cpp:10-28 | The images in plain bytes, least significant first. |
| `MemCursor.OverwrittenExactly` | src/libratel/MemWriter.cpp:35 | Writing puts the bytes at the cursor and leaves every other byte alone. |
| `MemCursor.MemReader.ReadData` | src/libratel/MemReader.cpp:44-52 | Returns exactly the bytes at the cursor and advances by their number, or changes nothing. |
| `MemCursor.MemReader.ReadUint8` | src/libratel/MemReader.cpp:24-27 | Returns the value whose image lies at the cursor, or changes nothing. |
| `MemCursor.MemReader.ReadUint16` | src/libratel/MemReader.cpp:29-32 | The same for 16 bits. |
| `MemCursor.MemReader.ReadUint32` | src/libratel/MemReader.cpp:34-37 | The same for 32 bits. |
| `MemCursor.MemReader.ReadUint64` | src/libratel/MemReader.cpp:39-42 | The same for 64 bits. |
| `MemCursor.MemReader.SetPos` | src/libratel/MemReader.cpp:16-22 | May reach the end of the buffer, not beyond. |
| `MemCursor.MemReader.Shift` | src/libratel/MemReader.cpp:54-61 | Accepted exactly when the new offset is in [0, size), and then moves there, by exactly the given distance. |
| `MemCursor.MemReader.ShiftFromStart` | src/libratel/MemReader.cpp:63-70 | Accepted exactly when the offset is below the size. |
| `MemCursor.MemReader.GetRemainingSize` | src/libratel/MemReader.cpp:82-85 | Truncated to 32 bits: exact if and only if less than 4 GiB remain. |
| `MemCursor.MemWriter.WriteData` | src/libratel/MemWriter.cpp:30-38 | Overwrites exactly the bytes at the cursor and advances, or changes nothing. |
| `MemCursor.MemWriter.WriteUint8` | src/libratel/MemWriter.cpp:10-13 | Writes the image of the value in the same way. |
| `MemCursor.MemWriter.WriteUint16` | src/libratel/MemWriter.cpp:15-18 | The same for 16 bits. |
| `MemCursor.MemWriter.WriteUint32` | src/libratel/MemWriter.cpp:20-23 | The same for 32 bits. |
| `MemCursor.MemWriter.WriteUint64` | src/libratel/MemWriter.cpp:25-28 | The same for 64 bits. |
| `MemCursor.MemWriter.ShiftFromStart` | src/libratel/MemWriter.cpp:40-47 | Accepted exactly when the offset is below the size. |
| `Serialization.ReadExactly` | src/libratel/Serialization.h:32-44 | Reading a scalar, string or arbitrarily nested vector succeeds with a value if and only if the value has the type and its wire image lies at the cursor. |
| `Serialization.ReadIsSound` | src/libratel/Serialization.h:32-44 | A successful read consumes exactly the image of what it returns; a failed one leaves the cursor inside the buffer. |
| `Serialization.ReadIsComplete` | src/libratel/Serialization.h:32-44 | Wherever the image of a value lies, the read returns that value and consumes exactly the image. |
| `Serialization.ImagesInBytes` | src/libratel/Serialization.cpp:24-47 | The wire images in plain bytes: a string or vector follows its length in two bytes. |
| `Serialization.FailedReadConsumes` | src/libratel/Serialization.cpp:39-47 | What a read that fails has consumed: nothing without a length, the length when the string is cut short. |
| `Serialization.Read` | src/libratel/Serialization.cpp:24-37 | The overloads return what parsing at the cursor prescribes, value and final offset, also on failure. |
| `Serialization.ReadVector` | src/libratel/Serialization.h:32-44 | The count and item loop does the same for vectors, nested ones through `Read`. |
| `Serialization.ReadString` | src/libratel/Serialization.cpp:39-47 | The same for length-prefixed strings; the length stays consumed when the body is missing. |
| `SignalStorage.StorageRefinesRelation` | src/libratel/NQSignals/Private/SignalConnectionStorage.h:25-90 | After any sequence of operations the list of each signal holds exactly the callbacks whose own history says connected, with their first object and latest callback, in the order of their first connection. |
| `SignalStorage.OnlyOneListRefines` | src/libratel/NQSignals/Private/SignalConnectionStorage.h:25-90 | That description determines the list completely. |
| `SignalStorage.DistinctHashes` | src/libratel/NQSignals/Private/SignalConnectionStorage.h:39-41 | The callback hashes in a list are pairwise distinct. |
| `SignalStorage.ConnectedExactly` | src/libratel/NQSignals/Private/SignalConnectionStorage.h:38-41 | The search finds a hash exactly when it is related, and finds that pipe. |
| `SignalStorage.DisconnectReports` | src/libratel/NQSignals/Private/SignalConnectionStorage.h:57-76 | `disconnect` returns true exactly when the two were connected. |
| `SignalStorage.ConnectIsIdleExactly` | src/libratel/NQSignals/Private/SignalConnectionStorage.h:43-50 | A connect changes nothing if and only if that very callback already stands. |
| `SignalStorage.ReconnectIsIdle` | src/libratel/NQSignals/Private/SignalConnectionStorage.h:43-50 | Without hash collisions among the callbacks of the run, connecting again is idle exactly when already connected. |
| `SignalStorage.ConnectChanges` | src/libratel/NQSignals/Private/SignalConnectionStorage.h:25-54 | A connect replaces the callback of the one pipe with its hash and nothing else, or adds a pipe at the end. |
| `SignalStorage.DisconnectChanges` | src/libratel/NQSignals/Private/SignalConnectionStorage.h:56-76 | A disconnect takes out the one pipe with its hash, or nothing. |
| `SignalStorage.SweepChanges` | src/libratel/NQSignals/Private/SignalConnectionStorage.h:78-90 | A sweep removes the pipes of the object and no others. |
| `SignalStorage.ConnectedByHistory` | src/libratel/NQSignals/Private/SignalConnectionStorage.h:25-76 | Without sweeps, connected means that a connect was not followed by a disconnect. |
| `SignalStorage.OrderOfListeners` | src/libratel/NQSignals/Private/SignalConnectionStorage.h:25-76 | A concrete run of two listeners: order kept on reconnecting, lost on leaving and coming back. |
| `SignalStorage.PresentExactly` | src/libratel/NQSignals/Private/SignalConnectionStorage.h:57-90 | The map has a key exactly when something is connected to the signal or a sweep emptied its list and no connect followed. |
| `SignalStorage.KeyPresentExactly` | src/libratel/NQSignals/Private/SignalConnectionStorage.h:57-76 | A signal that is never swept has a key exactly while something is connected to it. |
| `SignalStorage.KeyLingersExactly` | src/libratel/NQSignals/Private/SignalConnectionStorage.h:78-90 | With sweeps, a key without pipes stays exactly when a sweep emptied its list and no connect followed. |
| `SignalStorage.SweepLeavesKey` | src/libratel/NQSignals/Private/SignalConnectionStorage.h:78-90 | A concrete run after which the key is present and nothing is connected. |
| `SignalStorage.SignalConnectionStorage.Connect` | src/libratel/NQSignals/Private/SignalConnectionStorage.h:25-54 | The object stays the map of its calls so far, also for an existing slot, whose callback is replaced in place; the result is always true. |
| `SignalStorage.SignalConnectionStorage.Disconnect` | src/libratel/NQSignals/Private/SignalConnectionStorage.h:56-76 | Erases the slot, and the key with the last slot; the result is whether the calls so far had connected the two. |
| `SignalStorage.SignalConnectionStorage.DisconnectByHash` | src/libratel/NQSignals/Private/SignalConnectionStorage.h:78-90 | Removes every pipe of the object and keeps the order of the rest; the result is whether the key was present. |
| `SignalStorage.SignalConnectionStorage.HasConnection` | src/libratel/NQSignals/Private/SignalConnectionStorage.cpp:9-12 | True exactly when, by the calls so far, something is connected to the signal or a sweep disconnected the last of it. |
| `SignalStorage.SignalConnectionStorage.GetConnection` | src/libratel/NQSignals/Private/SignalConnectionStorage.cpp:14-20 | The exception exactly when not; otherwise the list is the ordered relation of the calls so far. |
| `SignalHandler.ServedByGenerations` | src/libratel/NQSignals/Private/SignalHandler.cpp:38-57 | The queue discipline calls signals generation by generation: those waiting, then all they emitted, and so on. |
| `SignalHandler.CalledByLevels` | src/libratel/NQSignals/Private/SignalHandler.cpp:38-57 | In terms of the ids alone: pushed signals are called level by level of what emits what, each once. |
| `SignalHandler.TakenPushed` | src/libratel/NQSignals/Private/SignalHandler.cpp:51-56 | The loop takes pushed signals up to and with the first that stops it. |
| `SignalHandler.SignalHandler.RunOnce` | src/libratel/NQSignals/Private/SignalHandler.cpp:38-49 | Drains the queue and everything emitted meanwhile, in that order, skips null signals, ignores stops, and returns the error left by an earlier run. |
| `SignalHandler.SignalHandler.RunLoop` | src/libratel/NQSignals/Private/SignalHandler.cpp:51-57 | Calls the same order up to the first stopping signal, the first null one, or the end, and ends accordingly: stopped, EmptySignal, or asleep in `pop`. |
| `SignalHandler.SignalHandler.Run` | src/libratel/NQSignals/Private/SignalHandler.cpp:8-21 | Runs the loop in the caller, or starts a thread for it and returns 0; refuses while the flag is set, which includes a loop that ended on a null pointer; a second start of a thread terminates the program, as the first is never joined; fed by `push` alone there is never an EmptySignal, and 1 means that it runs already. |
| `SignalHandler.SignalHandler.CheckQueue` | src/libratel/NQSignals/Private/SignalHandler.cpp:59-69 | Takes the front; a null signal sets the error and ends the loop. |
| `SignalHandler.SignalHandler.ExecuteSignal` | src/libratel/NQSignals/Private/SignalHandler.cpp:71-77 | Calls the signal once, with what it emits at the back of the queue; a null signal does nothing. |
| `SignalHandler.RoundDecides` | src/libratel/NQSignals/Private/SignalHandler.cpp:51-56 | What one round of the loop decides: go on, stopped, met null, or drained. |

## Left out

- src/Event: sockets, listeners, timers, signals and address conversion of libevent; a connection
  is its user, the buffers sent on it and whether it is connected.
- Object lifetime: deletion of a session while its callbacks are on the stack.
- Text logging, start-up, exceptions with streams, `InetUtils`, `TcpServer`, `TcpSocket` and
  `Event2Server`.
- src/SessionMng.cpp: session ids and the map of sessions; what giving up an outbound connection
  does inside the network library.
- Callbacks with empty bodies: `Session::onReceive`, `Session::onConnectionClosed`,
  `InConnTracker::onConnected`, `TcpStreamProxy::onConnected`; an event delivered to them changes
  only the connection's own state.
- Working BIND, UDP and domain connects: the program shown does not complete them.
- Several buffers sent while one event is handled with different outcomes: handling an event
  sends at most one, so one answer per event suffices.
- Session.Session.OnConnected: the local address that the connection reports is assumed to name
  its variant, because `std::get` demands it of a type byte that exists.
- SessionRuns.OpenRelayIsTransparent: assumes that sends succeed and no side has closed; a failed
  `send` drops its buffer, as `SessionRuns.RelayAfterHandover` states without that assumption.
- SocksDecoder.DecodeGreeting: starts from a fresh message, as the machine supplies; the source
  would append to what an old message holds.
- StringUtils.StringSplit: requires a non-empty delimiter; with an empty one the source loops
  for ever (`StringUtils.LoopEndsExactly`).
- Authorizer.SocksLoginPassAuthorizer.GetLine: `std::getline` on a file whose content is given;
  read errors halfway through a file are not modelled.
- The queue's methods are steps of a transition system on values, because what matters about
  them is how threads interleave; there is no class for it.
- ConcurrentQueue.EveryRunSafe: `notify_one` wakes any one waiter and the mutex is taken in any
  order; fairness and timing are not modelled, nor is `size`.
- ConcurrentQueue.SettlesEventually: ends without spurious wake-ups; with infinitely many of them
  a popper may recheck for ever.
- MemCursor.MemReader.ReadData: a caller's buffer is smaller than 2^63 bytes, as every object is;
  `MemCursor.AccessCheckExactly` says what the check does beyond.
- MemCursor.MemReader.Shift: requires that the sum does not overflow a signed 64-bit integer,
  which is undefined in the source.
- `MemWriter::shift` is declared and not defined; `size`, `getOffset` and `getPos` are observers.
- Serialization.Read: the readers of `bool` and `Optional`, the special vector of `bool`, and the
  partly filled value after a failed read.
- SignalStorage.StorageRefinesRelation: signals and callbacks are pairs of object and member
  function with an arbitrary hash function; the callback and hash templates of NQSignals,
  lifetimes of shared callbacks and the reference that `getConnection` hands out are not modelled.
- SignalHandler.SignalHandler.RunLoop: what a signal emits and whether it stops the handler is
  fixed in advance and every chain of emissions is finite; other threads are absent here, they
  are in `HandlerLoop`.
- HandlerLoop.CalledInPushOrder: a signal is only a value there, its emissions are pushes by the
  loop's own thread, null pointers do not occur, and starting the loop again is not an event.
