/**
 * Values exchanged between the client-side upgrade connection and its
 * collaborators: what the endpoint's fill returns, the parsed response head,
 * the negotiated extension configurations, and the observable events that
 * the endpoint, the client and the buffer pool record.
 */
module HandshakeTypes {

  datatype Option<+T> = None | Some(value: T)

  datatype Result<+R, +E> = Success(value: R) | Failure(error: E)

  /** One call of the endpoint's fill: a byte count (0 when nothing is
      available now, negative at end of stream) or a thrown IOException. */
  datatype FillResult = Filled(count: int) | FillFailed

  /** Why the client was told that the handshake failed. */
  datatype Cause =
    | InvalidRequestStructure   // the ClassCastException in the constructor
    | TransportFault            // an IOException from the endpoint
    | HashMismatch              // the UpgradeException of the accept-hash check

  /** A negotiated extension (name and parameters), as ExtensionConfig.parse yields it. */
  datatype ExtensionConfig = ExtensionConfig(name: string, parameters: seq<(string, string)>)

  /** What the response-header parser produces: the Sec-WebSocket-Accept
      token and every header name with its values in arrival order. */
  datatype ResponseHead = ResponseHead(acceptHash: string, headers: map<string, seq<string>>)

  /** What the client hands over as its upgrade request: the client-side
      request class, carrying the Sec-WebSocket-Key, some other class, or
      null (which the cast lets through). */
  datatype UpgradeRequest = ClientUpgradeRequest(key: string) | OtherUpgradeRequest | NoUpgradeRequest

  /** The reserved frame-header bits RSV1, RSV2 and RSV3 of section 5.2 of RFC 6455. */
  datatype Rsv = Rsv1 | Rsv2 | Rsv3

  /** Observable calls into the collaborators, in the order they happen. */
  datatype Event =
    | Acquire                                  // bufferPool.acquire
    | Release                                  // bufferPool.release
    | Fill(result: FillResult)                 // endPoint.fill
    | FillInterested                           // read interest re-armed
    | ShutdownOutput                           // endPoint.shutdownOutput
    | Close                                    // endPoint.close
    | SetConnection                            // endPoint.setConnection
    | SetUpgradeResponse(head: ResponseHead)   // client.setUpgradeResponse
    | Completed(head: ResponseHead, extensions: seq<ExtensionConfig>)  // client.completed
    | Failed(cause: Cause)                     // client.failed

  /** The three pure functions the validator calls but whose code is not
      part of this model: AcceptHash.hashKey (section 1.3 of RFC 6455), the
      comma-separated quote-aware QuotedStringTokenizer, and ExtensionConfig.parse. */
  datatype HandshakeFunctions = HandshakeFunctions(
    hashKey: string -> string,
    tokenize: string -> seq<string>,
    parseConfig: string -> ExtensionConfig)

  const ExtensionsHeader: string := "Sec-WebSocket-Extensions"

  /** The values of one header, in arrival order; none when it is absent. */
  function HeaderValues(head: ResponseHead, name: string): seq<string>
  {
    if name in head.headers then head.headers[name] else []
  }

  /** What the scripted endpoint's fill returns and what stays pending:
      an exhausted script has nothing available now, so fill returns 0. */
  function NextFill(pending: seq<FillResult>): (FillResult, seq<FillResult>)
  {
    if pending == [] then (Filled(0), []) else (pending[0], pending[1..])
  }
}
