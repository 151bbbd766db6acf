# Jetty WebSocket client: the upgrade connection

This project models `UpgradeConnection`, the connection handler of the Jetty
WebSocket client. It owns the endpoint from the moment the socket connects
until the server's HTTP upgrade response (RFC 6455, section 4.1) has been
read. Once the response has been read, it either fails the handshake or
swaps in the steady-state `WebSocketClientConnection`.

The model is imperative, like the source:

- `ClientIo.UpgradeConnection` is a class. Its methods are the constructor,
  `disconnect`, `notifyConnect`, `onFillable`, `read`, `validateResponse`
  and `upgradeConnection`.
- The objects it talks to are small classes in `Collaborators`: the
  endpoint, the buffer pool, the client, the response-header parser, the
  extensions, the frame generator and frame parser, the steady-state
  connection and the session.
- The endpoint, the buffer pool and the client record the calls made on
  them in one shared `EventLog`. That makes the order of calls across these
  objects (fill, `client.failed`, `shutdownOutput`, `close`,
  `setConnection`, …) one sequence of `Event`s.
- The other collaborators record nothing. What the upgrade does to them is
  stated on their fields instead: the `next*Frames` links of the
  extensions (`OutgoingLinked`, `IncomingLinked`), the reserved bits in use
  on the generator and parser, the session's outgoing entry and the
  parser's incoming handler.

Each method is proved against a reference definition in `ReadModel`:

- `ReadRun` gives the events, the return value, the remaining fill results
  and the chunks fed to the parser for one call of `read`.
- `OnFillableEvents` gives the events of one readiness callback.
- `Validate` and `ExtensionsOf` give what `validateResponse` computes.
- `Pipeline` holds the extension wiring of `upgradeConnection`: two link
  loops and an in-place reverse on the extension array. They are proved
  against `OutgoingLinked` and `IncomingLinked`, which state the
  `next*Frames` field of every extension.

`ReadProperties` proves what the source promises about these definitions:

- the grammar of a run of `read`: positive chunks, then one ending;
- when `read` asks for more;
- that the client hears of the outcome at most once;
- that every failure is followed by a full disconnect;
- that completion happens only for a validated response;
- that buffers are balanced over any number of callbacks;
- that extension tokens are flattened in order.

## Model

| member | source | states |
|---|---|---|
| ClientIo.UpgradeConnection.constructor | jetty-websocket/websocket-client/src/main/java/org/eclipse/jetty/websocket/client/internal/io/UpgradeConnection.java:90-106 | A fresh response parser and the factory's buffer pool. A client-side upgrade request is stored and nothing is logged. A request of any other class leaves the request empty, and exactly one `Failed(InvalidRequestStructure)` is reported to the client. A null request passes the cast: the request stays empty and nothing is reported. |
| ClientIo.UpgradeConnection.Disconnect | jetty-websocket/websocket-client/src/main/java/org/eclipse/jetty/websocket/client/internal/io/UpgradeConnection.java:108-120 | The log grows by exactly `DisconnectEvents(onlyOutput)`: output shutdown first, then close when not output-only. |
| ReadModel.DisconnectEvents | jetty-websocket/websocket-client/src/main/java/org/eclipse/jetty/websocket/client/internal/io/UpgradeConnection.java:108-120 | The first event is always `ShutdownOutput`, and a `Close` occurs iff `onlyOutput` is false. |
| ClientIo.UpgradeConnection.ReportFailure | jetty-websocket/websocket-client/src/main/java/org/eclipse/jetty/websocket/client/internal/io/UpgradeConnection.java:199-212 | Each catch block tells the client once with its cause, then calls `disconnect(false)`: the log grows by `Failed(cause)`, `ShutdownOutput`, `Close`. |
| ClientIo.UpgradeConnection.NotifyConnect | jetty-websocket/websocket-client/src/main/java/org/eclipse/jetty/websocket/client/internal/io/UpgradeConnection.java:122-125 | The client's completion callback receives the upgrade response the client already holds, with its head and stored extension list. |
| ClientIo.UpgradeConnection.OnFillable | jetty-websocket/websocket-client/src/main/java/org/eclipse/jetty/websocket/client/internal/io/UpgradeConnection.java:128-146 | The log grows by `OnFillableEvents(ReadRun(...))`: acquire, the events of `read`, release, then fill-interest iff `read` returned true. The endpoint's remaining fills and the parser's input advance as `ReadRun` says. When the run reached a response, the client holds a fresh upgrade response with that head; when the response also validated, the endpoint holds a fresh connection. Otherwise neither changes. |
| ClientIo.UpgradeConnection.Read | jetty-websocket/websocket-client/src/main/java/org/eclipse/jetty/websocket/client/internal/io/UpgradeConnection.java:163-213 | The fill loop yields exactly the events, return value, remaining fill results and parser input of the reference run `ReadRun` over the fill results pending on entry. The client's upgrade response becomes a fresh one carrying the run's response head, with the flattened extension list iff it validated. The endpoint's connection becomes a fresh one iff that response validated. Neither changes on a run without a response. |
| ClientIo.UpgradeConnection.HandleResponse | jetty-websocket/websocket-client/src/main/java/org/eclipse/jetty/websocket/client/internal/io/UpgradeConnection.java:186-195 | For a complete response, the log grows by `ResponseEvents`: `setUpgradeResponse`, then either the failure path for the validation error, or completion followed by the connection swap. The client holds `resp`. On a failed validation, the endpoint's connection and `resp`'s extension list are unchanged. On success, `resp`'s extension list is `Validate`'s, and the endpoint holds a fresh connection wired (`Wired`) to fresh instances of the negotiated extensions. |
| ClientIo.UpgradeConnection.CollectExtensions | jetty-websocket/websocket-client/src/main/java/org/eclipse/jetty/websocket/client/internal/io/UpgradeConnection.java:291-301 | The two nested token loops build exactly `ExtensionsOf(values)`: each header value's tokens, parsed, one value after the other. |
| ClientIo.UpgradeConnection.ValidateResponse | jetty-websocket/websocket-client/src/main/java/org/eclipse/jetty/websocket/client/internal/io/UpgradeConnection.java:283-303 | It fails iff the accept hash differs from `hashKey(key)`, and then with `HashMismatch` and the response untouched. Otherwise the response's extension list becomes `ExtensionsOf` of its `Sec-WebSocket-Extensions` values. |
| ClientIo.UpgradeConnection.Upgrade | jetty-websocket/websocket-client/src/main/java/org/eclipse/jetty/websocket/client/internal/io/UpgradeConnection.java:215-281 | A fresh connection and session that know each other. The negotiated extensions are fresh and distinct and are wired by `OutgoingLinked` and `IncomingLinked`. The session's outgoing entry and the parser's incoming handler are the chain heads. Generator and parser bits are set exactly for the bits some extension claims. The endpoint's connection is the new one, and the only logged event is a single, final `SetConnection`. |
| ClientIo.NewConnection | jetty-websocket/websocket-client/src/main/java/org/eclipse/jetty/websocket/client/internal/io/UpgradeConnection.java:219-226 | A fresh connection and session pointing at each other, with no reserved bit in use. |
| ClientIo.LinkNegotiated | jetty-websocket/websocket-client/src/main/java/org/eclipse/jetty/websocket/client/internal/io/UpgradeConnection.java:227-272 | A null list from the factory leaves both chain heads at their defaults (connection and session) with no extension. Otherwise the factory's instances are linked as `ConnectExtensions` says. |
| Pipeline.LinkOutgoing | jetty-websocket/websocket-client/src/main/java/org/eclipse/jetty/websocket/client/internal/io/UpgradeConnection.java:236-261 | `e0.nextOutgoing` is the connection and `e(i).nextOutgoing` is `e(i-1)`. The returned head is the last extension, or the connection when there is none. Each flag becomes its old value OR "some extension claims it". |
| Pipeline.MarkReservedBits | jetty-websocket/websocket-client/src/main/java/org/eclipse/jetty/websocket/client/internal/io/UpgradeConnection.java:245-260 | Each RSV bit on the generator and the parser becomes old OR "this extension claims it". A bit is never cleared, and the parser's incoming handler is untouched. |
| Pipeline.ReverseInPlace | jetty-websocket/websocket-client/src/main/java/org/eclipse/jetty/websocket/client/internal/io/UpgradeConnection.java:264 | The array's contents become the reverse of what they were. |
| Pipeline.LinkIncoming | jetty-websocket/websocket-client/src/main/java/org/eclipse/jetty/websocket/client/internal/io/UpgradeConnection.java:265-271 | Looping over the reversed list, read back in the original order: the last extension passes incoming frames to the session, and `e(i)` passes them to `e(i+1)`. The head is `e0`, or the session when there is none. |
| Pipeline.ConnectExtensions | jetty-websocket/websocket-client/src/main/java/org/eclipse/jetty/websocket/client/internal/io/UpgradeConnection.java:234-272 | Both chains are linked over the list as negotiated, with `e0` nearest the wire on both. The outgoing head is `e(n-1)` and the incoming head is `e0`. RSV flags are ORed in. The list is left reversed. |
| ReadModel.ReadRunContinues | jetty-websocket/websocket-client/src/main/java/org/eclipse/jetty/websocket/client/internal/io/UpgradeConnection.java:180-196 | A positive fill with no response yet is recorded, and the loop goes round again with that chunk fed. |
| ReadModel.ReadRunResponds | jetty-websocket/websocket-client/src/main/java/org/eclipse/jetty/websocket/client/internal/io/UpgradeConnection.java:186-195 | A positive fill that completes the response ends `read` with false, after the response events. |
| ReadModel.ReadRunStops | jetty-websocket/websocket-client/src/main/java/org/eclipse/jetty/websocket/client/internal/io/UpgradeConnection.java:170-179 | A fill of 0 ends `read` with true, and a negative fill with false. Either way nothing else is logged. |
| ReadModel.ReadRunFaults | jetty-websocket/websocket-client/src/main/java/org/eclipse/jetty/websocket/client/internal/io/UpgradeConnection.java:199-205 | A fill that throws ends `read` with false, after the failure path. |
| ReadProperties.ReadRunGrammar | jetty-websocket/websocket-client/src/main/java/org/eclipse/jetty/websocket/client/internal/io/UpgradeConnection.java:163-213 | Every run of `read` is some positive chunks, each leaving the parser without a response, then one ending: suspended, end of stream, fault, or response. It asks for more exactly when suspended, and the parser was fed exactly the positive chunks. |
| ReadProperties.ReadMoreIffZeroFill | jetty-websocket/websocket-client/src/main/java/org/eclipse/jetty/websocket/client/internal/io/UpgradeConnection.java:170-174 | `read` returns true iff its last event is a fill of 0. |
| ReadProperties.FillEndingIsSilent | jetty-websocket/websocket-client/src/main/java/org/eclipse/jetty/websocket/client/internal/io/UpgradeConnection.java:170-179 | When `read` stops at a fill, it did nothing but fill: no completion, failure, disconnect or swap. At end of stream it returns false. |
| ReadProperties.AtMostOneOutcome | jetty-websocket/websocket-client/src/main/java/org/eclipse/jetty/websocket/client/internal/io/UpgradeConnection.java:163-213 | A run of `read` tells the client exactly once (completed or failed) unless it stopped at a fill, and then not at all. |
| ReadProperties.FailureDisconnectsFully | jetty-websocket/websocket-client/src/main/java/org/eclipse/jetty/websocket/client/internal/io/UpgradeConnection.java:199-212 | Every `client.failed` in `read` is followed by exactly `shutdownOutput`, `close`, and nothing more, and `read` returns false. |
| ReadProperties.CompletedOnlyWhenValid | jetty-websocket/websocket-client/src/main/java/org/eclipse/jetty/websocket/client/internal/io/UpgradeConnection.java:186-195 | A completion is reported only for a response whose accept hash matches the key, carrying the flattened extension list. It comes right after `setUpgradeResponse` and right before the swap, which is the last event, and `read` returns false. |
| ReadProperties.SwapIffValidResponse | jetty-websocket/websocket-client/src/main/java/org/eclipse/jetty/websocket/client/internal/io/UpgradeConnection.java:186-195 | A run of `read` swaps the connection iff it reached a response whose accept hash matches the key. A run that reached a response handed it to the client, and a run that asks for more reached none. |
| ReadProperties.MismatchedHashFails | jetty-websocket/websocket-client/src/main/java/org/eclipse/jetty/websocket/client/internal/io/UpgradeConnection.java:283-288 | A response with a mismatched hash is followed by exactly `Failed(HashMismatch)` and a full disconnect. There is no completion for it. |
| ReadProperties.NoFillAfterResponse | jetty-websocket/websocket-client/src/main/java/org/eclipse/jetty/websocket/client/internal/io/UpgradeConnection.java:190-194 | Once the response has been handed to the client, `read` fills no more. |
| ReadProperties.ReadLeavesCallbackEvents | jetty-websocket/websocket-client/src/main/java/org/eclipse/jetty/websocket/client/internal/io/UpgradeConnection.java:163-213 | `read` never acquires or releases a buffer and never re-arms read interest. |
| ReadProperties.OnFillableBalanced | jetty-websocket/websocket-client/src/main/java/org/eclipse/jetty/websocket/client/internal/io/UpgradeConnection.java:130-145 | One callback acquires exactly one buffer first and releases exactly one, after everything `read` did. Read interest is re-armed once, as the last step, iff `read` returned true. |
| ReadProperties.CallbackOutcomes | jetty-websocket/websocket-client/src/main/java/org/eclipse/jetty/websocket/client/internal/io/UpgradeConnection.java:128-146 | One callback tells the client at most once, and not at all when it re-arms read interest. |
| ReadProperties.CallbacksBalanced | jetty-websocket/websocket-client/src/main/java/org/eclipse/jetty/websocket/client/internal/io/UpgradeConnection.java:128-146 | Over any number of consecutive callbacks, acquires equal releases, and the client is told at most once. |
| ReadProperties.ExtensionsOfFlattens | jetty-websocket/websocket-client/src/main/java/org/eclipse/jetty/websocket/client/internal/io/UpgradeConnection.java:291-302 | The stored extension list is the parse of every token of every header value, in header order and then token order, and is empty when there are none. |
| ReadProperties.ExtensionsOfAppend | jetty-websocket/websocket-client/src/main/java/org/eclipse/jetty/websocket/client/internal/io/UpgradeConnection.java:292-301 | Header values seen in two groups give the two groups' lists, one after the other. |
| ReadProperties.DisconnectHasNoOutcome | jetty-websocket/websocket-client/src/main/java/org/eclipse/jetty/websocket/client/internal/io/UpgradeConnection.java:108-120 | A disconnect never tells the client anything. |
| ReadProperties.ResponseHasOneOutcome | jetty-websocket/websocket-client/src/main/java/org/eclipse/jetty/websocket/client/internal/io/UpgradeConnection.java:186-195 | A complete response tells the client exactly once, whether or not it validates. |

## Left out

- `SendUpgradeRequest` (lines 61-81) and `onOpen` are not modelled. They cover request generation, UTF-8 encoding and the asynchronous write. They are the only place that arms read interest first.
- The HTTP response-header parser's grammar is not modelled. It is a function `step` from the chunks fed so far to "no response yet" or a response head. That keeps its state across fills and callbacks, but buffer contents and byte-level parsing are not modelled.
- `AcceptHash.hashKey`, `QuotedStringTokenizer` and `ExtensionConfig.parse` are parameters (`HandshakeFunctions`), not modelled algorithms.
- `validateWebSocketHash` is modelled as a plain comparison that raises the `UpgradeException` on mismatch.
- Header lookup is a map from the exact header name to its list of values. Case-insensitive matching is not modelled.
- The extension registry (`initExtensions`) is a function from the negotiated configurations to "null" or the reserved bits each returned instance claims. It is assumed to return fresh, distinct instances.
- The constructors of the connection and session are reduced to the fields the upgrade sets: the policy, the event driver and the sub-protocol are not modelled.
- The scheduler, the unimplemented timeout, buffer sizing, logging, the executor and the reactor's concurrency are not modelled. Readiness callbacks are modelled as strictly sequential (`Callbacks`).
- An exception the source does not catch is not modelled: `Read` and `OnFillable` require a stored request. After the constructor's failure path the request field is null, and `validateResponse` would throw a `NullPointerException`.
- ClientIo.UpgradeConnection.Read: the endpoint's fill results are a finite script. An exhausted script reads as 0, so a run that never sees a response ends suspended rather than waiting.

## Notes on the code

These are behaviours of the code as written that a reader of RFC 6455 might not expect:

- A negative fill (end of stream) makes `read` return false with no `client.failed`, no disconnect and no completion (lines 175-179). A handshake cut short by the server is therefore not reported to the client by this class. Section 4.1 of RFC 6455 asks the client to fail the WebSocket connection when the server's handshake is not received.
- Both catch blocks (lines 199-212) call `disconnect(false)`. So every failure inside `read` shuts the output down and then closes the endpoint. No failure there uses the output-only shutdown. The constructor's failure path (lines 102-105) reports to the client and never disconnects.
- The first negotiated extension `e0` is nearest the wire in both chains. Outgoing frames go session → `e(n-1)` → … → `e0` → connection. Incoming frames go parser → `e0` → … → `e(n-1)` → session.
