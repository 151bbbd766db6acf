/**
 * Reference definitions of what the upgrade connection does, as values:
 * the events of a disconnect, the validation of a response head, the run
 * of one read loop over the endpoint's pending fill results, and the
 * events of one readiness callback. The imperative methods of ClientIo
 * are proved equal to these; ReadProperties proves what they promise.
 */
module ReadModel {
  import opened HandshakeTypes

  /** disconnect(onlyOutput): output shutdown first, then a full close unless onlyOutput. */
  function DisconnectEvents(onlyOutput: bool): (r: seq<Event>)
    ensures r != [] && r[0] == ShutdownOutput
    ensures (Close in r) <==> !onlyOutput
  {
    [ShutdownOutput] + (if onlyOutput then [] else [Close])
  }

  /** The catch blocks of read: the client is told, then the endpoint is disconnected fully. */
  function FailureEvents(cause: Cause): seq<Event>
  {
    [Failed(cause)] + DisconnectEvents(false)
  }

  /** ExtensionConfig.parse applied to each token, in order. */
  function ParseAll(tokens: seq<string>, fns: HandshakeFunctions): seq<ExtensionConfig>
  {
    seq(|tokens|, k requires 0 <= k < |tokens| => fns.parseConfig(tokens[k]))
  }

  /** The extension list validation stores: header value by header value,
      the parsed tokens of each value. */
  function ExtensionsOf(values: seq<string>, fns: HandshakeFunctions): seq<ExtensionConfig>
  {
    if values == [] then [] else ParseAll(fns.tokenize(values[0]), fns) + ExtensionsOf(values[1..], fns)
  }

  /** validateResponse: the accept hash first, then the extensions. */
  function Validate(head: ResponseHead, key: string, fns: HandshakeFunctions): Result<seq<ExtensionConfig>, Cause>
  {
    if head.acceptHash != fns.hashKey(key) then Failure(HashMismatch)
    else Success(ExtensionsOf(HeaderValues(head, ExtensionsHeader), fns))
  }

  /** What follows a complete response: it is handed to the client, then
      either the failure path (client.failed, disconnect(false)) or the
      connect notification and the swap of the endpoint's connection. */
  function ResponseEvents(head: ResponseHead, key: string, fns: HandshakeFunctions): seq<Event>
  {
    [SetUpgradeResponse(head)] +
    match Validate(head, key, fns)
    case Failure(cause) => FailureEvents(cause)
    case Success(extensions) => [Completed(head, extensions), SetConnection]
  }

  /** The result of one call of read: the events it caused, its return
      value, the endpoint's fill results still pending, the chunks the
      parser has been fed, and the response head handed to the client, if any. */
  datatype ReadOutcome = ReadOutcome(events: seq<Event>, readMore: bool, rest: seq<FillResult>, fed: seq<int>,
                                     response: Option<ResponseHead>)

  function Prepend(prefix: seq<Event>, run: ReadOutcome): ReadOutcome
  {
    run.(events := prefix + run.events)
  }

  /** One call of read: fill until a zero count (suspend, true), a negative
      count (end of stream, false), an IOException (failure path, false),
      or a chunk after which the parser has a complete response (validate,
      notify, upgrade, false); a chunk with no response yet loops. */
  function ReadRun(pending: seq<FillResult>, fed: seq<int>, step: seq<int> -> Option<ResponseHead>,
                   key: string, fns: HandshakeFunctions): ReadOutcome
    decreases |pending|
  {
    var (r, rest) := NextFill(pending);
    match r
    case FillFailed =>
      ReadOutcome([Fill(r)] + FailureEvents(TransportFault), false, rest, fed, None)
    case Filled(n) =>
      if n == 0 then ReadOutcome([Fill(r)], true, rest, fed, None)
      else if n < 0 then ReadOutcome([Fill(r)], false, rest, fed, None)
      else
        var fed' := fed + [n];
        match step(fed')
        case None => Prepend([Fill(r)], ReadRun(rest, fed', step, key, fns))
        case Some(head) => ReadOutcome([Fill(r)] + ResponseEvents(head, key, fns), false, rest, fed', Some(head))
  }

  /** One readiness callback (onFillable): borrow a buffer, read, give the
      buffer back, and re-arm read interest when read asked for more. */
  function OnFillableEvents(run: ReadOutcome): seq<Event>
  {
    [Acquire] + run.events + [Release] + (if run.readMore then [FillInterested] else [])
  }

  /** The events of up to `callbacks` readiness callbacks in a row: the
      reactor calls onFillable again only while read interest is re-armed. */
  function Callbacks(callbacks: nat, pending: seq<FillResult>, fed: seq<int>,
                     step: seq<int> -> Option<ResponseHead>, key: string, fns: HandshakeFunctions): seq<Event>
  {
    if callbacks == 0 then []
    else
      var run := ReadRun(pending, fed, step, key, fns);
      OnFillableEvents(run) + (if run.readMore then Callbacks(callbacks - 1, run.rest, run.fed, step, key, fns) else [])
  }

  /** A positive chunk after which the parser has no response yet: read goes round again. */
  lemma ReadRunContinues(pending: seq<FillResult>, fed: seq<int>, step: seq<int> -> Option<ResponseHead>,
                         key: string, fns: HandshakeFunctions, n: int)
    requires NextFill(pending).0 == Filled(n) && n > 0 && step(fed + [n]).None?
    ensures ReadRun(pending, fed, step, key, fns)
      == Prepend([Fill(Filled(n))], ReadRun(NextFill(pending).1, fed + [n], step, key, fns))
  {
  }

  /** A positive chunk after which the parser has a response: read ends there. */
  lemma ReadRunResponds(pending: seq<FillResult>, fed: seq<int>, step: seq<int> -> Option<ResponseHead>,
                        key: string, fns: HandshakeFunctions, n: int)
    requires NextFill(pending).0 == Filled(n) && n > 0 && step(fed + [n]).Some?
    ensures ReadRun(pending, fed, step, key, fns)
      == ReadOutcome([Fill(Filled(n))] + ResponseEvents(step(fed + [n]).value, key, fns), false,
                     NextFill(pending).1, fed + [n], step(fed + [n]))
  {
  }

  /** The loop of read has recorded `done` and has `run` still to go, out of `run0`. */
  ghost predicate Tail(run0: ReadOutcome, done: seq<Event>, run: ReadOutcome)
  {
    run0 == Prepend(done, run)
  }

  /** One more fill moves from what is still to go to what is recorded. */
  lemma TailStep(run0: ReadOutcome, done: seq<Event>, run: ReadOutcome, e: Event, next: ReadOutcome)
    requires Tail(run0, done, run) && run == Prepend([e], next)
    ensures Tail(run0, done + [e], next)
  {
    assert done + ([e] + next.events) == (done + [e]) + next.events;
  }

  /** A fill that throws: the failure path, and read ends there. */
  lemma ReadRunFaults(pending: seq<FillResult>, fed: seq<int>, step: seq<int> -> Option<ResponseHead>,
                      key: string, fns: HandshakeFunctions)
    requires NextFill(pending).0 == FillFailed
    ensures ReadRun(pending, fed, step, key, fns)
      == ReadOutcome([Fill(FillFailed)] + FailureEvents(TransportFault), false, NextFill(pending).1, fed, None)
  {
  }

  /** A fill of 0 or less: read ends there, asking for more only on 0. */
  lemma ReadRunStops(pending: seq<FillResult>, fed: seq<int>, step: seq<int> -> Option<ResponseHead>,
                     key: string, fns: HandshakeFunctions, n: int)
    requires NextFill(pending).0 == Filled(n) && n <= 0
    ensures ReadRun(pending, fed, step, key, fns) == ReadOutcome([Fill(Filled(n))], n == 0, NextFill(pending).1, fed, None)
  {
  }

  /** Regrouping the log after the last steps of read. */
  lemma Regroup(log0: seq<Event>, done: seq<Event>, e: Event, tail: seq<Event>)
    ensures log0 + done + [e] + tail == log0 + (done + ([e] + tail))
  {
  }

  lemma RegroupOne(log0: seq<Event>, done: seq<Event>, e: Event)
    ensures log0 + done + [e] == log0 + (done + [e])
  {
  }
}
