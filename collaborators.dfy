/**
 * The objects the upgrade connection talks to. Their own code is not part
 * of this model: each method here does only what the upgrade connection
 * relies on, and records its call in the shared event log.
 */
module Collaborators {
  import opened HandshakeTypes

  /** The order of every observable call made by the upgrade connection. */
  class EventLog {
    var events: seq<Event>

    constructor ()
      ensures events == []
    {
      events := [];
    }

    method Record(e: Event)
      modifies this
      ensures events == old(events) + [e]
    {
      events := events + [e];
    }
  }

  /** The transport endpoint: a scripted sequence of fill results, the
      output and full shutdown, read interest, and the slot holding the
      endpoint's active connection handler. */
  class EndPoint {
    const log: EventLog
    var pending: seq<FillResult>
    var connection: object?

    constructor (log: EventLog, pending: seq<FillResult>, connection: object?)
      ensures this.log == log && this.pending == pending && this.connection == connection
    {
      this.log := log;
      this.pending := pending;
      this.connection := connection;
    }

    method Fill() returns (r: FillResult)
      modifies this`pending, log
      ensures (r, pending) == NextFill(old(pending))
      ensures log.events == old(log.events) + [Event.Fill(r)]
    {
      r, pending := NextFill(pending).0, NextFill(pending).1;
      log.Record(Event.Fill(r));
    }

    method ShutdownOutput()
      modifies log
      ensures log.events == old(log.events) + [Event.ShutdownOutput]
    {
      log.Record(Event.ShutdownOutput);
    }

    method Close()
      modifies log
      ensures log.events == old(log.events) + [Event.Close]
    {
      log.Record(Event.Close);
    }

    method FillInterested()
      modifies log
      ensures log.events == old(log.events) + [Event.FillInterested]
    {
      log.Record(Event.FillInterested);
    }

    method SetConnection(c: object)
      modifies this`connection, log
      ensures connection == c
      ensures log.events == old(log.events) + [Event.SetConnection]
    {
      connection := c;
      log.Record(Event.SetConnection);
    }
  }

  /** The pool the read buffer is borrowed from; buffer contents are not modelled. */
  class BufferPool {
    const log: EventLog

    constructor (log: EventLog)
      ensures this.log == log
    {
      this.log := log;
    }

    method Acquire()
      modifies log
      ensures log.events == old(log.events) + [Event.Acquire]
    {
      log.Record(Event.Acquire);
    }

    method Release()
      modifies log
      ensures log.events == old(log.events) + [Event.Release]
    {
      log.Record(Event.Release);
    }
  }

  /** The mutable upgrade response: the parsed head, and the extension list
      that validation stores back. */
  class UpgradeResponse {
    const head: ResponseHead
    var extensions: seq<ExtensionConfig>

    constructor (head: ResponseHead)
      ensures this.head == head && extensions == []
    {
      this.head := head;
      extensions := [];
    }

    method SetExtensions(extensions: seq<ExtensionConfig>)
      modifies this`extensions
      ensures this.extensions == extensions
    {
      this.extensions := extensions;
    }
  }

  /** The incremental response-header parser. Its grammar is not part of
      this model: `step` gives its answer after each chunk it is fed, as a
      function of every chunk fed so far, which is how its state carries
      across fills and across readiness callbacks. */
  class ResponseHeaderParser {
    const step: seq<int> -> Option<ResponseHead>
    var fed: seq<int>

    constructor (step: seq<int> -> Option<ResponseHead>)
      ensures this.step == step && fed == []
    {
      this.step := step;
      fed := [];
    }

    method Parse(count: int) returns (resp: UpgradeResponse?)
      modifies this`fed
      ensures fed == old(fed) + [count]
      ensures step(fed).None? ==> resp == null
      ensures step(fed).Some? ==>
        resp != null && fresh(resp) && resp.head == step(fed).value && resp.extensions == []
    {
      fed := fed + [count];
      match step(fed)
      case None =>
        resp := null;
      case Some(head) =>
        resp := new UpgradeResponse(head);
    }
  }

  /** A negotiated extension instance: a stage of both frame chains, with the
      reserved bits it claims. */
  class Extension {
    const usesRsv1: bool
    const usesRsv2: bool
    const usesRsv3: bool
    var nextOutgoing: object?
    var nextIncoming: object?

    constructor (rsv1: bool, rsv2: bool, rsv3: bool)
      ensures usesRsv1 == rsv1 && usesRsv2 == rsv2 && usesRsv3 == rsv3
      ensures nextOutgoing == null && nextIncoming == null
    {
      usesRsv1, usesRsv2, usesRsv3 := rsv1, rsv2, rsv3;
      nextOutgoing, nextIncoming := null, null;
    }

    function Uses(bit: Rsv): bool
    {
      match bit
      case Rsv1 => usesRsv1
      case Rsv2 => usesRsv2
      case Rsv3 => usesRsv3
    }

    method SetNextOutgoingFrames(next: object)
      modifies this`nextOutgoing
      ensures nextOutgoing == next
    {
      nextOutgoing := next;
    }

    method SetNextIncomingFrames(next: object)
      modifies this`nextIncoming
      ensures nextIncoming == next
    {
      nextIncoming := next;
    }
  }

  /** The frame generator's reserved-bit flags. */
  class Generator {
    var rsv1InUse: bool
    var rsv2InUse: bool
    var rsv3InUse: bool

    constructor ()
      ensures !rsv1InUse && !rsv2InUse && !rsv3InUse
    {
      rsv1InUse, rsv2InUse, rsv3InUse := false, false, false;
    }

    function InUse(bit: Rsv): bool
      reads this`rsv1InUse, this`rsv2InUse, this`rsv3InUse
    {
      match bit
      case Rsv1 => rsv1InUse
      case Rsv2 => rsv2InUse
      case Rsv3 => rsv3InUse
    }

    method SetRsvInUse(bit: Rsv, inUse: bool)
      modifies this`rsv1InUse, this`rsv2InUse, this`rsv3InUse
      ensures InUse(bit) == inUse
      ensures forall other :: other != bit ==> InUse(other) == old(InUse(other))
    {
      match bit
      case Rsv1 => rsv1InUse := inUse;
      case Rsv2 => rsv2InUse := inUse;
      case Rsv3 => rsv3InUse := inUse;
    }
  }

  /** The frame parser: its reserved-bit flags and the handler it hands
      incoming frames to. */
  class FrameParser {
    var rsv1InUse: bool
    var rsv2InUse: bool
    var rsv3InUse: bool
    var incomingFramesHandler: object?

    constructor ()
      ensures !rsv1InUse && !rsv2InUse && !rsv3InUse && incomingFramesHandler == null
    {
      rsv1InUse, rsv2InUse, rsv3InUse := false, false, false;
      incomingFramesHandler := null;
    }

    function InUse(bit: Rsv): bool
      reads this`rsv1InUse, this`rsv2InUse, this`rsv3InUse
    {
      match bit
      case Rsv1 => rsv1InUse
      case Rsv2 => rsv2InUse
      case Rsv3 => rsv3InUse
    }

    method SetRsvInUse(bit: Rsv, inUse: bool)
      modifies this`rsv1InUse, this`rsv2InUse, this`rsv3InUse
      ensures InUse(bit) == inUse
      ensures forall other :: other != bit ==> InUse(other) == old(InUse(other))
    {
      match bit
      case Rsv1 => rsv1InUse := inUse;
      case Rsv2 => rsv2InUse := inUse;
      case Rsv3 => rsv3InUse := inUse;
    }

    method SetIncomingFramesHandler(handler: object)
      modifies this`incomingFramesHandler
      ensures incomingFramesHandler == handler
    {
      incomingFramesHandler := handler;
    }
  }

  /** The steady-state connection: the wire-side sink of outgoing frames,
      owning the frame generator and frame parser. */
  class WebSocketClientConnection {
    const generator: Generator
    const parser: FrameParser
    var session: WebSocketSession?

    constructor ()
      ensures fresh(generator) && fresh(parser) && session == null
      ensures forall bit :: !generator.InUse(bit) && !parser.InUse(bit)
      ensures parser.incomingFramesHandler == null
    {
      generator := new Generator();
      parser := new FrameParser();
      session := null;
    }

    method SetSession(session: WebSocketSession)
      modifies this`session
      ensures this.session == session
    {
      this.session := session;
    }
  }

  /** The session: the application-side sink of incoming frames, and the
      entry point of outgoing frames. */
  class WebSocketSession {
    const connection: WebSocketClientConnection
    var outgoing: object?

    constructor (connection: WebSocketClientConnection)
      ensures this.connection == connection && outgoing == null
    {
      this.connection := connection;
      outgoing := null;
    }

    method SetOutgoing(outgoing: object)
      modifies this`outgoing
      ensures this.outgoing == outgoing
    {
      this.outgoing := outgoing;
    }
  }

  /** The client factory: the buffer pool, and the extension registry. The
      registry is not part of this model: `instantiate` says, for the
      negotiated configurations, whether a list comes back (None stands for
      null) and which reserved bits each returned extension claims. */
  class ClientFactory {
    const bufferPool: BufferPool
    const instantiate: seq<ExtensionConfig> -> Option<seq<(bool, bool, bool)>>

    constructor (bufferPool: BufferPool, instantiate: seq<ExtensionConfig> -> Option<seq<(bool, bool, bool)>>)
      ensures this.bufferPool == bufferPool && this.instantiate == instantiate
    {
      this.bufferPool := bufferPool;
      this.instantiate := instantiate;
    }

    method InitExtensions(configs: seq<ExtensionConfig>) returns (list: array?<Extension>)
      ensures instantiate(configs).None? <==> list == null
      ensures list != null ==> fresh(list) && list.Length == |instantiate(configs).value|
      ensures list != null ==> forall i :: 0 <= i < list.Length ==>
        fresh(list[i]) && list[i].nextOutgoing == null && list[i].nextIncoming == null &&
        (list[i].usesRsv1, list[i].usesRsv2, list[i].usesRsv3) == instantiate(configs).value[i]
      ensures list != null ==> forall i, j :: 0 <= i < j < list.Length ==> list[i] != list[j]
    {
      match instantiate(configs)
      case None =>
        list := null;
      case Some(usage) =>
        var n := |usage|;
        var created := new Extension?[n];
        var i := 0;
        while i < n
          invariant 0 <= i <= n
          invariant forall k :: 0 <= k < i ==>
            && created[k] != null && fresh(created[k])
            && created[k].nextOutgoing == null && created[k].nextIncoming == null
            && (created[k].usesRsv1, created[k].usesRsv2, created[k].usesRsv3) == usage[k]
          invariant forall k, m :: 0 <= k < m < i ==> created[k] != created[m]
        {
          created[i] := new Extension(usage[i].0, usage[i].1, usage[i].2);
          i := i + 1;
        }
        list := new Extension[n](k requires 0 <= k < n reads created => created[k]);
    }
  }

  /** The waiting client: its upgrade request, the factory, and the
      completion and failure callbacks. */
  class WebSocketClient {
    const log: EventLog
    const factory: ClientFactory
    const upgradeRequest: UpgradeRequest
    var upgradeResponse: UpgradeResponse?

    constructor (log: EventLog, factory: ClientFactory, upgradeRequest: UpgradeRequest)
      ensures this.log == log && this.factory == factory
      ensures this.upgradeRequest == upgradeRequest && upgradeResponse == null
    {
      this.log := log;
      this.factory := factory;
      this.upgradeRequest := upgradeRequest;
      upgradeResponse := null;
    }

    method SetUpgradeResponse(resp: UpgradeResponse)
      modifies this`upgradeResponse, log
      ensures upgradeResponse == resp
      ensures log.events == old(log.events) + [Event.SetUpgradeResponse(resp.head)]
    {
      upgradeResponse := resp;
      log.Record(Event.SetUpgradeResponse(resp.head));
    }

    method Completed(resp: UpgradeResponse)
      modifies log
      ensures log.events == old(log.events) + [Event.Completed(resp.head, resp.extensions)]
    {
      log.Record(Event.Completed(resp.head, resp.extensions));
    }

    method Failed(cause: Cause)
      modifies log
      ensures log.events == old(log.events) + [Event.Failed(cause)]
    {
      log.Record(Event.Failed(cause));
    }
  }
}
