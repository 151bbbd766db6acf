/**
 * The client-side upgrade connection: the connection handler that sits on
 * the endpoint from the moment the socket is connected until the server's
 * upgrade response has been read, validated and answered by swapping in
 * the steady-state websocket connection.
 */
module ClientIo {
  import opened HandshakeTypes
  import opened Collaborators
  import opened ReadModel
  import opened Pipeline

  class UpgradeConnection {
    const endPoint: EndPoint
    const client: WebSocketClient
    const bufferPool: BufferPool
    const parser: ResponseHeaderParser
    const functions: HandshakeFunctions
    const log: EventLog
    /** The client's request as the client-side request class; None when the
        client's request was null or the cast in the constructor failed. */
    const request: Option<UpgradeRequest>

    /** Every collaborator records into the one log, the buffer pool is the
        client factory's, and a stored request is of the client-side class. */
    predicate Valid()
    {
      && endPoint.log == log && client.log == log && bufferPool.log == log
      && bufferPool == client.factory.bufferPool
      && (request.Some? ==> request.value.ClientUpgradeRequest?)
    }

    /** The Sec-WebSocket-Key the request was sent with. */
    function Key(): string
      requires Valid() && request.Some?
    {
      request.value.key
    }

    /** The constructor: a fresh response parser, the factory's buffer pool,
        and the cast of the client's request; a request of another class is
        reported to the client as an invalid request structure and leaves the
        request field empty; a null request passes the cast and leaves the
        field empty with nothing reported. */
    constructor (endPoint: EndPoint, client: WebSocketClient, step: seq<int> -> Option<ResponseHead>,
                 functions: HandshakeFunctions)
      requires endPoint.log == client.log && client.factory.bufferPool.log == client.log
      modifies client.log
      ensures Valid()
      ensures this.endPoint == endPoint && this.client == client && this.functions == functions
      ensures fresh(parser) && parser.step == step && parser.fed == []
      ensures client.upgradeRequest.ClientUpgradeRequest? ==>
        request == Some(client.upgradeRequest) && log.events == old(client.log.events)
      ensures client.upgradeRequest.OtherUpgradeRequest? ==>
        request == None && log.events == old(client.log.events) + [Failed(InvalidRequestStructure)]
      ensures client.upgradeRequest.NoUpgradeRequest? ==>
        request == None && log.events == old(client.log.events)
    {
      this.endPoint := endPoint;
      this.client := client;
      this.log := client.log;
      bufferPool := client.factory.bufferPool;
      parser := new ResponseHeaderParser(step);
      this.functions := functions;
      request := if client.upgradeRequest.ClientUpgradeRequest? then Some(client.upgradeRequest) else None;
      new;
      if client.upgradeRequest.OtherUpgradeRequest? {
        client.Failed(InvalidRequestStructure);
      }
    }

    /** disconnect: shut the output down first (so that a TLS close alert can
        still be sent), then close the endpoint unless only the output was asked for. */
    method Disconnect(onlyOutput: bool)
      requires Valid()
      modifies log
      ensures log.events == old(log.events) + DisconnectEvents(onlyOutput)
    {
      endPoint.ShutdownOutput();
      if !onlyOutput {
        endPoint.Close();
      }
    }

    /** The two catch blocks of read: tell the client, then disconnect fully. */
    method ReportFailure(cause: Cause)
      requires Valid()
      modifies log
      ensures log.events == old(log.events) + FailureEvents(cause)
    {
      client.Failed(cause);
      Disconnect(false);
    }

    /** notifyConnect: hand the client's stored upgrade response to its completion callback. */
    method NotifyConnect()
      requires Valid() && client.upgradeResponse != null
      modifies log
      ensures log.events == old(log.events) + [Completed(client.upgradeResponse.head, client.upgradeResponse.extensions)]
    {
      client.Completed(client.upgradeResponse);
    }

    /** The extension part of validateResponse: every value of the
        Sec-WebSocket-Extensions header, split by the quote-aware tokenizer,
        each token parsed into a configuration, all in arrival order. */
    method CollectExtensions(values: seq<string>) returns (extensions: seq<ExtensionConfig>)
      ensures extensions == ExtensionsOf(values, functions)
    {
      extensions := [];
      var v := 0;
      while v < |values|
        invariant 0 <= v <= |values|
        invariant extensions == ExtensionsOf(values[..v], functions)
      {
        var tokens := functions.tokenize(values[v]);
        ghost var before := extensions;
        var t := 0;
        while t < |tokens|
          invariant 0 <= t <= |tokens|
          invariant extensions == before + ParseAll(tokens[..t], functions)
        {
          extensions := extensions + [functions.parseConfig(tokens[t])];
          ParseAllSnoc(tokens, t, functions);
          t := t + 1;
        }
        assert tokens[..t] == tokens;
        ExtensionsOfSnoc(values[..v], values[v], functions);
        assert values[..v + 1] == values[..v] + [values[v]];
        v := v + 1;
      }
      assert values[..v] == values;
    }

    /** validateResponse: the accept hash is checked against the hash of the
        request's key before anything else; a mismatch is the UpgradeException
        (returned here as its cause) and leaves the response untouched;
        otherwise the negotiated extension list is stored on the response. */
    method ValidateResponse(response: UpgradeResponse) returns (error: Option<Cause>)
      requires Valid() && request.Some?
      modifies response`extensions
      ensures error.Some? <==> Validate(response.head, Key(), functions).Failure?
      ensures error.Some? ==> error.value == Validate(response.head, Key(), functions).error
      ensures error.Some? ==> response.extensions == old(response.extensions)
      ensures error.None? ==> response.extensions == Validate(response.head, Key(), functions).value
    {
      var expectedHash := functions.hashKey(request.value.key);
      if response.head.acceptHash != expectedHash {
        return Some(HashMismatch);
      }
      var extensions := CollectExtensions(HeaderValues(response.head, ExtensionsHeader));
      response.SetExtensions(extensions);
      error := None;
    }

    /** upgradeConnection: a fresh websocket connection and session, the
        negotiated extensions linked into both frame chains, the session's
        outgoing entry and the parser's incoming handler set to the chain
        heads, and, last, the endpoint's connection swapped. The connection
        and the extension list are returned as ghosts for the contract only. */
    method Upgrade(response: UpgradeResponse) returns (ghost connection: WebSocketClientConnection, ghost negotiated: seq<Extension>)
      requires Valid()
      modifies endPoint`connection, log
      ensures fresh(connection) && endPoint.connection == connection
      ensures log.events == old(log.events) + [SetConnection]
      ensures connection.session != null && fresh(connection.session) && connection.session.connection == connection
      ensures Negotiated(client.factory, response.extensions, negotiated)
      ensures forall i :: 0 <= i < |negotiated| ==> fresh(negotiated[i])
      ensures OutgoingLinked(negotiated, connection)
      ensures connection.session.outgoing == OutgoingHead(negotiated, connection)
      ensures IncomingLinked(negotiated, connection.session)
      ensures connection.parser.incomingFramesHandler == IncomingHead(negotiated, connection.session)
      ensures forall bit :: connection.generator.InUse(bit) == Claimed(negotiated, bit)
      ensures forall bit :: connection.parser.InUse(bit) == Claimed(negotiated, bit)
    {
      var conn, session := NewConnection();
      var outgoing, incoming;
      outgoing, incoming, negotiated := LinkNegotiated(client.factory, response.extensions, conn, session);
      session.SetOutgoing(outgoing);
      conn.parser.SetIncomingFramesHandler(incoming);
      endPoint.SetConnection(conn);
      connection := conn;
    }

    /** What read leaves in the client's upgrade-response slot: a fresh
        response with the handed-over head and, when it validated, the
        flattened extension list (none otherwise); the previous value when
        no response was handed over. */
    ghost predicate HandedOver(run: ReadOutcome, previous: UpgradeResponse?)
      requires Valid() && request.Some?
      reads client`upgradeResponse, client.upgradeResponse
    {
      match run.response
      case None => client.upgradeResponse == previous
      case Some(head) =>
        && client.upgradeResponse != null && client.upgradeResponse.head == head
        && client.upgradeResponse.extensions
             == (if Validate(head, Key(), functions).Success? then Validate(head, Key(), functions).value else [])
    }

    /** What read leaves in the endpoint's connection slot: a connection
        other than the previous one exactly when the handed-over response
        validated. */
    ghost predicate Swapped(run: ReadOutcome, previous: object?)
      requires Valid() && request.Some?
      reads endPoint`connection
    {
      if run.response.Some? && Validate(run.response.value, Key(), functions).Success?
      then endPoint.connection != null && endPoint.connection != previous
      else endPoint.connection == previous
    }

    /** The body of read once the parser has produced a response: hand it
        to the client, validate it, and then either report the
        UpgradeException and disconnect fully, leaving the response and the
        endpoint's connection as they were, or store the extension list,
        notify the connect and upgrade. The new connection and the extension
        list are returned as ghosts for the contract only. */
    method HandleResponse(resp: UpgradeResponse)
      returns (ghost connection: WebSocketClientConnection?, ghost negotiated: seq<Extension>)
      requires Valid() && request.Some?
      modifies log, endPoint`connection, client`upgradeResponse, resp`extensions
      ensures log.events == old(log.events) + ResponseEvents(resp.head, Key(), functions)
      ensures client.upgradeResponse == resp
      ensures Validate(resp.head, Key(), functions).Failure? ==>
        endPoint.connection == old(endPoint.connection) && resp.extensions == old(resp.extensions)
      ensures Validate(resp.head, Key(), functions).Success? ==>
        && resp.extensions == Validate(resp.head, Key(), functions).value
        && connection != null && fresh(connection) && endPoint.connection == connection
        && Negotiated(client.factory, resp.extensions, negotiated)
        && (forall i :: 0 <= i < |negotiated| ==> fresh(negotiated[i]))
        && Wired(connection, negotiated)
    {
      client.SetUpgradeResponse(resp);
      var error := ValidateResponse(resp);
      if error.Some? {
        ReportFailure(error.value);
        return null, [];
      }
      NotifyConnect();
      connection, negotiated := Upgrade(resp);
      assert Wired(connection, negotiated);
    }

    /** read: fill until nothing is available (true: more to read later),
        end of stream (false, silently), an IOException (client.failed and
        a full disconnect, false), or a chunk that completes the response
        (hand it to the client, validate, then either the failure path or
        the connect notification and the upgrade; false). */
    method Read() returns (readMore: bool)
      requires Valid() && request.Some?
      modifies log, endPoint`pending, endPoint`connection, parser`fed, client`upgradeResponse
      ensures var run := ReadRun(old(endPoint.pending), old(parser.fed), parser.step, Key(), functions);
        && log.events == old(log.events) + run.events
        && readMore == run.readMore
        && endPoint.pending == run.rest
        && parser.fed == run.fed
        && HandedOver(run, old(client.upgradeResponse))
        && Swapped(run, old(endPoint.connection))
      ensures var run := ReadRun(old(endPoint.pending), old(parser.fed), parser.step, Key(), functions);
        && (run.response.Some? ==> fresh(client.upgradeResponse))
        && (run.response.Some? && Validate(run.response.value, Key(), functions).Success? ==> fresh(endPoint.connection))
    {
      ghost var step, key := parser.step, Key();
      ghost var run0 := ReadRun(endPoint.pending, parser.fed, step, key, functions);
      ghost var done: seq<Event> := [];
      while true
        invariant log.events == old(log.events) + done
        invariant Tail(run0, done, ReadRun(endPoint.pending, parser.fed, step, key, functions))
        invariant endPoint.connection == old(endPoint.connection)
        invariant client.upgradeResponse == old(client.upgradeResponse)
        decreases |endPoint.pending|
      {
        ghost var pending0, fed0 := endPoint.pending, parser.fed;
        var filled := endPoint.Fill();
        match filled
        case FillFailed =>
          ReadRunFaults(pending0, fed0, step, key, functions);
          ReportFailure(TransportFault);
          Regroup(old(log.events), done, Event.Fill(filled), FailureEvents(TransportFault));
          return false;
        case Filled(n) =>
          if n == 0 {
            ReadRunStops(pending0, fed0, step, key, functions, n);
            RegroupOne(old(log.events), done, Event.Fill(filled));
            return true;
          } else if n < 0 {
            ReadRunStops(pending0, fed0, step, key, functions, n);
            RegroupOne(old(log.events), done, Event.Fill(filled));
            return false;
          }
          var resp := parser.Parse(n);
          if resp != null {
            ReadRunResponds(pending0, fed0, step, key, functions, n);
            ghost var connection, negotiated := HandleResponse(resp);
            assert Validate(resp.head, key, functions).Success? ==> fresh(endPoint.connection);
            Regroup(old(log.events), done, Event.Fill(filled), ResponseEvents(resp.head, key, functions));
            return false;
          }
          ReadRunContinues(pending0, fed0, step, key, functions, n);
          TailStep(run0, done, ReadRun(pending0, fed0, step, key, functions), Event.Fill(filled), ReadRun(endPoint.pending, parser.fed, step, key, functions));
          RegroupOne(old(log.events), done, Event.Fill(filled));
          done := done + [Event.Fill(filled)];
      }
    }

    /** onFillable: borrow a buffer from the pool, read, give the buffer
        back whatever read did, and re-arm read interest when read asked for more. */
    method OnFillable()
      requires Valid() && request.Some?
      modifies log, endPoint`pending, endPoint`connection, parser`fed, client`upgradeResponse
      ensures var run := ReadRun(old(endPoint.pending), old(parser.fed), parser.step, Key(), functions);
        && log.events == old(log.events) + OnFillableEvents(run)
        && endPoint.pending == run.rest
        && parser.fed == run.fed
        && HandedOver(run, old(client.upgradeResponse))
        && Swapped(run, old(endPoint.connection))
      ensures var run := ReadRun(old(endPoint.pending), old(parser.fed), parser.step, Key(), functions);
        && (run.response.Some? ==> fresh(client.upgradeResponse))
        && (run.response.Some? && Validate(run.response.value, Key(), functions).Success? ==> fresh(endPoint.connection))
    {
      ghost var log0 := log.events;
      ghost var run := ReadRun(endPoint.pending, parser.fed, parser.step, Key(), functions);
      ghost var response0, connection0 := client.upgradeResponse, endPoint.connection;
      bufferPool.Acquire();
      var readMore := Read();
      assert HandedOver(run, response0) && Swapped(run, connection0);
      ghost var response1, connection1 := client.upgradeResponse, endPoint.connection;
      assert run.response.Some? ==> fresh(response1);
      assert run.response.Some? && Validate(run.response.value, Key(), functions).Success? ==> fresh(connection1);
      bufferPool.Release();
      ghost var callback := [Acquire] + run.events + [Release];
      assert log.events == log0 + callback;
      if readMore {
        endPoint.FillInterested();
        assert log0 + callback + [FillInterested] == log0 + (callback + [FillInterested]);
      } else {
        assert callback + [] == callback;
      }
    }
  }

  /** The steady-state connection and its session, each knowing the other,
      with no reserved bit in use and no incoming handler yet. */
  method NewConnection() returns (connection: WebSocketClientConnection, session: WebSocketSession)
    ensures fresh(connection) && fresh(connection.generator) && fresh(connection.parser) && fresh(session)
    ensures connection.session == session && session.connection == connection
    ensures forall bit :: !connection.generator.InUse(bit) && !connection.parser.InUse(bit)
  {
    connection := new WebSocketClientConnection();
    session := new WebSocketSession(connection);
    connection.SetSession(session);
  }

  /** The extensions the factory returned for the configurations: none
      for a null list, otherwise one distinct extension per returned entry,
      claiming the reserved bits that entry names. */
  ghost predicate Negotiated(factory: ClientFactory, configs: seq<ExtensionConfig>, negotiated: seq<Extension>)
  {
    && Distinct(negotiated)
    && (factory.instantiate(configs).None? ==> negotiated == [])
    && (factory.instantiate(configs).Some? ==>
         && |negotiated| == |factory.instantiate(configs).value|
         && forall i :: 0 <= i < |negotiated| ==>
              (negotiated[i].usesRsv1, negotiated[i].usesRsv2, negotiated[i].usesRsv3)
                == factory.instantiate(configs).value[i])
  }

  /** The steady-state connection after the upgrade: it and its session
      know each other, the extensions are linked into both chains with the
      session's outgoing entry and the parser's incoming handler at their
      heads, and exactly the reserved bits some extension claims are in use. */
  ghost predicate Wired(connection: WebSocketClientConnection, negotiated: seq<Extension>)
    reads connection, connection.session, connection.generator, connection.parser, negotiated
  {
    && connection.session != null && connection.session.connection == connection
    && OutgoingLinked(negotiated, connection)
    && connection.session.outgoing == OutgoingHead(negotiated, connection)
    && IncomingLinked(negotiated, connection.session)
    && connection.parser.incomingFramesHandler == IncomingHead(negotiated, connection.session)
    && (forall bit :: connection.generator.InUse(bit) == Claimed(negotiated, bit))
    && (forall bit :: connection.parser.InUse(bit) == Claimed(negotiated, bit))
  }

  /** The middle of upgradeConnection: instantiate the extensions for the
      negotiated configurations and, when a list comes back, link it into
      both chains; with no list the chains are the connection and the
      session themselves. */
  method LinkNegotiated(factory: ClientFactory, configs: seq<ExtensionConfig>,
                        connection: WebSocketClientConnection, session: WebSocketSession)
    returns (outgoing: object, incoming: object, ghost negotiated: seq<Extension>)
    modifies connection.generator, connection.parser
    ensures Negotiated(factory, configs, negotiated)
    ensures forall i :: 0 <= i < |negotiated| ==> fresh(negotiated[i])
    ensures OutgoingLinked(negotiated, connection) && outgoing == OutgoingHead(negotiated, connection)
    ensures IncomingLinked(negotiated, session) && incoming == IncomingHead(negotiated, session)
    ensures forall bit ::
      connection.generator.InUse(bit) == (old(connection.generator.InUse(bit)) || Claimed(negotiated, bit))
    ensures forall bit ::
      connection.parser.InUse(bit) == (old(connection.parser.InUse(bit)) || Claimed(negotiated, bit))
    ensures connection.parser.incomingFramesHandler == old(connection.parser.incomingFramesHandler)
  {
    var extensions := factory.InitExtensions(configs);
    if extensions == null {
      return connection, session, [];
    }
    negotiated := extensions[..];
    outgoing, incoming := ConnectExtensions(extensions, connection, session);
  }

  /** One more token parsed extends the parsed prefix by its configuration. */
  lemma ParseAllSnoc(tokens: seq<string>, t: nat, fns: HandshakeFunctions)
    requires t < |tokens|
    ensures ParseAll(tokens[..t + 1], fns) == ParseAll(tokens[..t], fns) + [fns.parseConfig(tokens[t])]
  {
    assert |ParseAll(tokens[..t + 1], fns)| == t + 1;
  }

  /** One more header value appends the configurations of its tokens. */
  lemma {:induction false} ExtensionsOfSnoc(values: seq<string>, last: string, fns: HandshakeFunctions)
    ensures ExtensionsOf(values + [last], fns) == ExtensionsOf(values, fns) + ParseAll(fns.tokenize(last), fns)
  {
    if values == [] {
      assert [last][1..] == [];
    } else {
      assert (values + [last])[1..] == values[1..] + [last];
      ExtensionsOfSnoc(values[1..], last, fns);
    }
  }
}
