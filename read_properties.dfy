/**
 * What the reference definitions of ReadModel promise: the shape of every
 * trace one call of read can produce, and the consequences the upgrade
 * handshake relies on (suspension exactly on a zero fill, a silent end of
 * stream, at most one outcome, a full disconnect after every failure, a
 * completion only for a validated response, no fill after a response,
 * balanced buffer use per readiness callback), plus the in-order
 * flattening of the extension headers.
 */
module ReadProperties {
  import opened HandshakeTypes
  import opened ReadModel

  /** The number of events of a trace that satisfy p. */
  function Count(events: seq<Event>, p: Event -> bool): nat
  {
    if events == [] then 0 else (if p(events[0]) then 1 else 0) + Count(events[1..], p)
  }

  lemma {:induction false} CountAppend(a: seq<Event>, b: seq<Event>, p: Event -> bool)
    ensures Count(a + b, p) == Count(a, p) + Count(b, p)
  {
    if a == [] {
      assert a + b == b;
    } else {
      assert (a + b)[0] == a[0] && (a + b)[1..] == a[1..] + b;
      CountAppend(a[1..], b, p);
    }
  }

  /** An event that tells the client how the handshake ended. */
  predicate IsOutcome(e: Event)
  {
    e.Completed? || e.Failed?
  }

  predicate IsAcquire(e: Event) { e.Acquire? }

  predicate IsRelease(e: Event) { e.Release? }

  predicate IsFillInterested(e: Event) { e.FillInterested? }

  function Last(events: seq<Event>): Event
    requires events != []
  {
    events[|events| - 1]
  }

  /** How one call of read ends. */
  datatype Ending =
    | Suspended                                  // a fill of 0
    | EndOfStream(count: int)                    // a negative fill
    | Faulted                                    // fill threw an IOException
    | Responded(count: int, head: ResponseHead)  // a chunk after which the parser has a response

  /** The fills of the chunks that did not yet complete the response. */
  function ChunkFills(chunks: seq<int>): seq<Event>
  {
    seq(|chunks|, i requires 0 <= i < |chunks| => Fill(Filled(chunks[i])))
  }

  /** The events from the last fill of read onwards. */
  function EndingEvents(ending: Ending, key: string, fns: HandshakeFunctions): seq<Event>
  {
    match ending
    case Suspended => [Fill(Filled(0))]
    case EndOfStream(n) => [Fill(Filled(n))]
    case Faulted => [Fill(FillFailed)] + FailureEvents(TransportFault)
    case Responded(n, head) => [Fill(Filled(n))] + ResponseEvents(head, key, fns)
  }

  /** What the ending feeds to the parser. */
  function EndingFed(ending: Ending): seq<int>
  {
    if ending.Responded? then [ending.count] else []
  }

  /** The grammar of one call of read: positive chunks, each of which left
      the parser without a response, then an ending; read asks for more
      exactly when it was suspended, and the parser has been fed exactly
      the positive chunks. */
  ghost predicate Shaped(run: ReadOutcome, fed: seq<int>, step: seq<int> -> Option<ResponseHead>,
                         key: string, fns: HandshakeFunctions, chunks: seq<int>, ending: Ending)
  {
    && (forall i :: 0 <= i < |chunks| ==> chunks[i] > 0)
    && (forall k :: 1 <= k <= |chunks| ==> step(fed + chunks[..k]).None?)
    && (ending.EndOfStream? ==> ending.count < 0)
    && (ending.Responded? ==> ending.count > 0 && step(fed + chunks + [ending.count]) == Some(ending.head))
    && run.events == ChunkFills(chunks) + EndingEvents(ending, key, fns)
    && run.readMore == ending.Suspended?
    && run.fed == fed + chunks + EndingFed(ending)
    && run.response == (if ending.Responded? then Some(ending.head) else None)
  }

  /** Every trace of read follows the grammar. */
  lemma {:induction false} ReadRunGrammar(pending: seq<FillResult>, fed: seq<int>, step: seq<int> -> Option<ResponseHead>,
                                          key: string, fns: HandshakeFunctions)
    ensures exists chunks, ending :: Shaped(ReadRun(pending, fed, step, key, fns), fed, step, key, fns, chunks, ending)
    decreases |pending|
  {
    var run := ReadRun(pending, fed, step, key, fns);
    var rest := NextFill(pending).1;
    match NextFill(pending).0
    case FillFailed =>
      ReadRunFaults(pending, fed, step, key, fns);
      assert Shaped(run, fed, step, key, fns, [], Faulted);
    case Filled(n) =>
      if n == 0 {
        ReadRunStops(pending, fed, step, key, fns, n);
        assert Shaped(run, fed, step, key, fns, [], Suspended);
      } else if n < 0 {
        ReadRunStops(pending, fed, step, key, fns, n);
        assert Shaped(run, fed, step, key, fns, [], EndOfStream(n));
      } else if step(fed + [n]).Some? {
        ReadRunResponds(pending, fed, step, key, fns, n);
        assert fed + [] + [n] == fed + [n];
        assert Shaped(run, fed, step, key, fns, [], Responded(n, step(fed + [n]).value));
      } else {
        ReadRunContinues(pending, fed, step, key, fns, n);
        ReadRunGrammar(rest, fed + [n], step, key, fns);
        var chunks, ending :| Shaped(ReadRun(rest, fed + [n], step, key, fns), fed + [n], step, key, fns, chunks, ending);
        ShapedCons(run, ReadRun(rest, fed + [n], step, key, fns), fed, n, step, key, fns, chunks, ending);
      }
  }

  /** A chunk that leaves the parser without a response, in front of a shaped run. */
  lemma {:induction false} ShapedCons(run: ReadOutcome, sub: ReadOutcome, fed: seq<int>, n: int, step: seq<int> -> Option<ResponseHead>,
                   key: string, fns: HandshakeFunctions, chunks: seq<int>, ending: Ending)
    requires n > 0 && step(fed + [n]).None?
    requires Shaped(sub, fed + [n], step, key, fns, chunks, ending)
    requires run == Prepend([Fill(Filled(n))], sub)
    ensures Shaped(run, fed, step, key, fns, [n] + chunks, ending)
  {
    var all := [n] + chunks;
    assert ChunkFills(all) == [Fill(Filled(n))] + ChunkFills(chunks);
    assert fed + all == fed + [n] + chunks;
    ConsNoResponse(fed, n, chunks, step);
  }

  /** The parser has no response after any prefix of a chunk that left it
      without one followed by chunks that left it without one. */
  lemma ConsNoResponse(fed: seq<int>, n: int, chunks: seq<int>, step: seq<int> -> Option<ResponseHead>)
    requires step(fed + [n]).None?
    requires forall k :: 1 <= k <= |chunks| ==> step(fed + [n] + chunks[..k]).None?
    ensures forall k :: 1 <= k <= |[n] + chunks| ==> step(fed + ([n] + chunks)[..k]).None?
  {
    forall k | 1 <= k <= |[n] + chunks|
      ensures step(fed + ([n] + chunks)[..k]).None?
    {
      if k == 1 {
        assert ([n] + chunks)[..k] == [n];
      } else {
        assert ([n] + chunks)[..k] == [n] + chunks[..k - 1];
        assert fed + ([n] + chunks)[..k] == fed + [n] + chunks[..k - 1];
      }
    }
  }

  /** The trace of a shaped run. */
  function Trace(chunks: seq<int>, ending: Ending, key: string, fns: HandshakeFunctions): seq<Event>
  {
    ChunkFills(chunks) + EndingEvents(ending, key, fns)
  }

  /** A run of read, through the grammar: its chunks, ending and trace. */
  lemma {:induction false} Grammar(pending: seq<FillResult>, fed: seq<int>, step: seq<int> -> Option<ResponseHead>,
                key: string, fns: HandshakeFunctions)
    returns (chunks: seq<int>, ending: Ending)
    ensures Shaped(ReadRun(pending, fed, step, key, fns), fed, step, key, fns, chunks, ending)
    ensures ReadRun(pending, fed, step, key, fns).events == Trace(chunks, ending, key, fns)
  {
    ReadRunGrammar(pending, fed, step, key, fns);
    chunks, ending :| Shaped(ReadRun(pending, fed, step, key, fns), fed, step, key, fns, chunks, ending);
  }

  /** The ending of a run, spelled out event by event. */
  lemma EndingSpelled(ending: Ending, key: string, fns: HandshakeFunctions)
    ensures var tail := EndingEvents(ending, key, fns);
      match ending
      case Suspended => tail == [Fill(Filled(0))]
      case EndOfStream(n) => tail == [Fill(Filled(n))]
      case Faulted => tail == [Fill(FillFailed), Failed(TransportFault), ShutdownOutput, Close]
      case Responded(n, head) =>
        if Validate(head, key, fns).Failure? then
          tail == [Fill(Filled(n)), SetUpgradeResponse(head), Failed(Validate(head, key, fns).error), ShutdownOutput, Close]
        else
          tail == [Fill(Filled(n)), SetUpgradeResponse(head), Completed(head, Validate(head, key, fns).value), SetConnection]
  {
  }

  /** The events of a trace, split at the ending. */
  lemma TraceIndexed(chunks: seq<int>, ending: Ending, key: string, fns: HandshakeFunctions)
    ensures var t := Trace(chunks, ending, key, fns);
      && |t| == |chunks| + |EndingEvents(ending, key, fns)|
      && (forall i :: 0 <= i < |chunks| ==> t[i] == Fill(Filled(chunks[i])))
      && t[|chunks|..] == EndingEvents(ending, key, fns)
  {
  }

  /** A trace ends in a fill exactly when read stopped at a fill, and in a
      fill of 0 exactly when it was suspended. */
  lemma {:induction false} TraceLast(chunks: seq<int>, ending: Ending, key: string, fns: HandshakeFunctions)
    requires ending.EndOfStream? ==> ending.count < 0
    ensures var t := Trace(chunks, ending, key, fns);
      && t != []
      && (Last(t).Fill? <==> ending.Suspended? || ending.EndOfStream?)
      && (Last(t) == Fill(Filled(0)) <==> ending.Suspended?)
  {
    var t := Trace(chunks, ending, key, fns);
    var tail := EndingEvents(ending, key, fns);
    TraceIndexed(chunks, ending, key, fns);
    EndingSpelled(ending, key, fns);
    assert Last(t) == tail[|tail| - 1];
  }

  /** read asks for more exactly when its last fill returned 0; a trace is never empty. */
  lemma {:induction false} ReadMoreIffZeroFill(pending: seq<FillResult>, fed: seq<int>, step: seq<int> -> Option<ResponseHead>,
                            key: string, fns: HandshakeFunctions)
    ensures var run := ReadRun(pending, fed, step, key, fns);
      run.events != [] && (run.readMore <==> Last(run.events) == Fill(Filled(0)))
  {
    var chunks, ending := Grammar(pending, fed, step, key, fns);
    TraceLast(chunks, ending, key, fns);
  }

  /** Stopping at a fill leaves a trace of fills only. */
  lemma {:induction false} TraceOfFills(chunks: seq<int>, ending: Ending, key: string, fns: HandshakeFunctions)
    requires ending.Suspended? || ending.EndOfStream?
    ensures forall e :: e in Trace(chunks, ending, key, fns) ==> e.Fill?
  {
    var t := Trace(chunks, ending, key, fns);
    TraceIndexed(chunks, ending, key, fns);
    EndingSpelled(ending, key, fns);
    forall e | e in t
      ensures e.Fill?
    {
      var i :| 0 <= i < |t| && t[i] == e;
      if i >= |chunks| {
        assert t[i] == t[|chunks|..][i - |chunks|];
      }
    }
  }

  /** When read stops at a fill (0 or end of stream), nothing but fills
      happened: no completion, no failure, no disconnect, no swap; and an
      end of stream does not ask for more. */
  lemma {:induction false} FillEndingIsSilent(pending: seq<FillResult>, fed: seq<int>, step: seq<int> -> Option<ResponseHead>,
                           key: string, fns: HandshakeFunctions)
    ensures var run := ReadRun(pending, fed, step, key, fns);
      run.events != [] && Last(run.events).Fill? ==>
        && (forall e :: e in run.events ==> e.Fill?)
        && (Last(run.events).result.Filled? && Last(run.events).result.count < 0 ==> !run.readMore)
  {
    var chunks, ending := Grammar(pending, fed, step, key, fns);
    TraceLast(chunks, ending, key, fns);
    if ending.Suspended? || ending.EndOfStream? {
      TraceOfFills(chunks, ending, key, fns);
    }
  }

  /** In a trace, the endpoint's connection is swapped exactly when read
      ended on a response that validates. */
  lemma {:induction false} TraceSwaps(chunks: seq<int>, ending: Ending, key: string, fns: HandshakeFunctions)
    ensures SetConnection in Trace(chunks, ending, key, fns)
      <==> ending.Responded? && Validate(ending.head, key, fns).Success?
  {
    var t := Trace(chunks, ending, key, fns);
    TraceIndexed(chunks, ending, key, fns);
    EndingSpelled(ending, key, fns);
    if SetConnection in t {
      var i :| 0 <= i < |t| && t[i] == SetConnection;
      TraceTail(chunks, ending, key, fns, i);
    }
    if ending.Responded? && Validate(ending.head, key, fns).Success? {
      assert t[|t| - 1] == SetConnection;
    }
  }

  /** read swaps the endpoint's connection exactly when it handed the client
      a response that validates; a run that asks for more handed over none. */
  lemma {:induction false} SwapIffValidResponse(pending: seq<FillResult>, fed: seq<int>,
                                                step: seq<int> -> Option<ResponseHead>, key: string, fns: HandshakeFunctions)
    ensures var run := ReadRun(pending, fed, step, key, fns);
      && ((SetConnection in run.events) <==> run.response.Some? && Validate(run.response.value, key, fns).Success?)
      && (run.response.Some? ==> SetUpgradeResponse(run.response.value) in run.events)
      && (run.readMore ==> run.response.None?)
  {
    var chunks, ending := Grammar(pending, fed, step, key, fns);
    TraceSwaps(chunks, ending, key, fns);
    if ending.Responded? {
      var t := Trace(chunks, ending, key, fns);
      TraceIndexed(chunks, ending, key, fns);
      EndingSpelled(ending, key, fns);
      assert t[|chunks| + 1] == SetUpgradeResponse(ending.head);
    }
  }

  /** The fills of the chunks tell the client nothing. */
  lemma {:induction false} ChunkFillsHaveNoOutcome(chunks: seq<int>)
    ensures Count(ChunkFills(chunks), IsOutcome) == 0
  {
    if chunks != [] {
      assert ChunkFills(chunks)[1..] == ChunkFills(chunks[1..]);
      ChunkFillsHaveNoOutcome(chunks[1..]);
    }
  }

  /** A trace tells the client of its outcome once, unless read stopped at a fill. */
  lemma {:induction false} TraceOutcomes(chunks: seq<int>, ending: Ending, key: string, fns: HandshakeFunctions)
    ensures Count(Trace(chunks, ending, key, fns), IsOutcome) == (if ending.Suspended? || ending.EndOfStream? then 0 else 1)
  {
    var tail := EndingEvents(ending, key, fns);
    CountAppend(ChunkFills(chunks), tail, IsOutcome);
    ChunkFillsHaveNoOutcome(chunks);
    EndingOutcomes(ending, key, fns);
  }

  /** Counting past the first event. */
  lemma CountCons(e: Event, rest: seq<Event>, p: Event -> bool)
    ensures Count([e] + rest, p) == (if p(e) then 1 else 0) + Count(rest, p)
  {
    assert ([e] + rest)[1..] == rest;
  }

  /** A disconnect tells the client nothing. */
  lemma {:induction false} DisconnectHasNoOutcome(onlyOutput: bool)
    ensures Count(DisconnectEvents(onlyOutput), IsOutcome) == 0
  {
    CountCons(ShutdownOutput, if onlyOutput then [] else [Close], IsOutcome);
    CountCons(Close, [], IsOutcome);
  }

  /** The failure path tells the client once. */
  lemma {:induction false} FailureHasOneOutcome(cause: Cause)
    ensures Count(FailureEvents(cause), IsOutcome) == 1
  {
    CountCons(Failed(cause), DisconnectEvents(false), IsOutcome);
    DisconnectHasNoOutcome(false);
  }

  /** A complete response tells the client once, whether it validates or not. */
  lemma {:induction false} ResponseHasOneOutcome(head: ResponseHead, key: string, fns: HandshakeFunctions)
    ensures Count(ResponseEvents(head, key, fns), IsOutcome) == 1
  {
    match Validate(head, key, fns)
    case Failure(cause) =>
      CountCons(SetUpgradeResponse(head), FailureEvents(cause), IsOutcome);
      FailureHasOneOutcome(cause);
    case Success(extensions) =>
      CountCons(SetUpgradeResponse(head), [Completed(head, extensions), SetConnection], IsOutcome);
      CountCons(Completed(head, extensions), [SetConnection], IsOutcome);
      CountCons(SetConnection, [], IsOutcome);
  }

  /** The ending alone tells the client of its outcome once, unless it is a fill. */
  lemma {:induction false} EndingOutcomes(ending: Ending, key: string, fns: HandshakeFunctions)
    ensures Count(EndingEvents(ending, key, fns), IsOutcome) == (if ending.Suspended? || ending.EndOfStream? then 0 else 1)
  {
    match ending
    case Suspended =>
      CountCons(Fill(Filled(0)), [], IsOutcome);
    case EndOfStream(n) =>
      CountCons(Fill(Filled(n)), [], IsOutcome);
    case Faulted =>
      CountCons(Fill(FillFailed), FailureEvents(TransportFault), IsOutcome);
      FailureHasOneOutcome(TransportFault);
    case Responded(n, head) =>
      CountCons(Fill(Filled(n)), ResponseEvents(head, key, fns), IsOutcome);
      ResponseHasOneOutcome(head, key, fns);
  }

  /** read tells the client at most once how the handshake ended: exactly
      once unless it stopped at a fill. */
  lemma {:induction false} AtMostOneOutcome(pending: seq<FillResult>, fed: seq<int>, step: seq<int> -> Option<ResponseHead>,
                         key: string, fns: HandshakeFunctions)
    ensures var run := ReadRun(pending, fed, step, key, fns);
      run.events != [] && Count(run.events, IsOutcome) == (if Last(run.events).Fill? then 0 else 1)
  {
    var chunks, ending := Grammar(pending, fed, step, key, fns);
    TraceLast(chunks, ending, key, fns);
    TraceOutcomes(chunks, ending, key, fns);
  }

  /** Where the events of the ending sit in a trace. */
  lemma TraceTail(chunks: seq<int>, ending: Ending, key: string, fns: HandshakeFunctions, i: int)
    requires |chunks| <= i < |Trace(chunks, ending, key, fns)|
    ensures var t := Trace(chunks, ending, key, fns);
      var tail := EndingEvents(ending, key, fns);
      t[i] == tail[i - |chunks|] && t[i + 1..] == tail[i - |chunks| + 1..]
  {
    TraceIndexed(chunks, ending, key, fns);
  }

  /** In a trace, every failure is followed by a full disconnect and nothing else. */
  lemma {:induction false} TraceFailures(chunks: seq<int>, ending: Ending, key: string, fns: HandshakeFunctions)
    ensures var t := Trace(chunks, ending, key, fns);
      forall i :: 0 <= i < |t| && t[i].Failed? ==> t[i + 1..] == DisconnectEvents(false) && !ending.Suspended?
  {
    var t := Trace(chunks, ending, key, fns);
    TraceIndexed(chunks, ending, key, fns);
    EndingSpelled(ending, key, fns);
    forall i | 0 <= i < |t| && t[i].Failed?
      ensures t[i + 1..] == DisconnectEvents(false) && !ending.Suspended?
    {
      TraceTail(chunks, ending, key, fns, i);
    }
  }

  /** Every failure told to the client is followed by a full disconnect
      (output shutdown, then close) and by nothing else. */
  lemma {:induction false} FailureDisconnectsFully(pending: seq<FillResult>, fed: seq<int>, step: seq<int> -> Option<ResponseHead>,
                                key: string, fns: HandshakeFunctions)
    ensures var run := ReadRun(pending, fed, step, key, fns);
      forall i :: 0 <= i < |run.events| && run.events[i].Failed? ==>
        run.events[i + 1..] == DisconnectEvents(false) && !run.readMore
  {
    var chunks, ending := Grammar(pending, fed, step, key, fns);
    TraceFailures(chunks, ending, key, fns);
  }

  /** In a trace, a completion is for the validated response just handed
      over, and is followed by the swap alone. */
  lemma {:induction false} TraceCompletions(chunks: seq<int>, ending: Ending, key: string, fns: HandshakeFunctions)
    ensures var t := Trace(chunks, ending, key, fns);
      forall i :: 0 <= i < |t| && t[i].Completed? ==>
        && Validate(t[i].head, key, fns) == Success(t[i].extensions)
        && 0 < i && t[i - 1] == SetUpgradeResponse(t[i].head)
        && t[i + 1..] == [SetConnection]
        && ending.Responded?
  {
    var t := Trace(chunks, ending, key, fns);
    TraceIndexed(chunks, ending, key, fns);
    EndingSpelled(ending, key, fns);
    forall i | 0 <= i < |t| && t[i].Completed?
      ensures && Validate(t[i].head, key, fns) == Success(t[i].extensions)
              && 0 < i && t[i - 1] == SetUpgradeResponse(t[i].head)
              && t[i + 1..] == [SetConnection]
              && ending.Responded?
    {
      TraceTail(chunks, ending, key, fns, i);
      TraceTail(chunks, ending, key, fns, i - 1);
    }
  }

  /** The client is told of completion only for a response whose accept
      hash matched the request's key, with the extension list that
      validation flattened from its headers; the response was handed to
      the client just before, and the endpoint's connection is swapped
      just after, as the last event. */
  lemma {:induction false} CompletedOnlyWhenValid(pending: seq<FillResult>, fed: seq<int>, step: seq<int> -> Option<ResponseHead>,
                               key: string, fns: HandshakeFunctions)
    ensures var run := ReadRun(pending, fed, step, key, fns);
      forall i :: 0 <= i < |run.events| && run.events[i].Completed? ==>
        && run.events[i].head.acceptHash == fns.hashKey(key)
        && run.events[i].extensions == ExtensionsOf(HeaderValues(run.events[i].head, ExtensionsHeader), fns)
        && 0 < i && run.events[i - 1] == SetUpgradeResponse(run.events[i].head)
        && run.events[i + 1..] == [SetConnection]
        && !run.readMore
  {
    var chunks, ending := Grammar(pending, fed, step, key, fns);
    TraceCompletions(chunks, ending, key, fns);
  }

  /** In a trace, a response with a mismatched accept hash is followed by the failure path. */
  lemma {:induction false} TraceMismatches(chunks: seq<int>, ending: Ending, key: string, fns: HandshakeFunctions)
    ensures var t := Trace(chunks, ending, key, fns);
      forall i :: 0 <= i < |t| && t[i].SetUpgradeResponse? && t[i].head.acceptHash != fns.hashKey(key) ==>
        t[i + 1..] == FailureEvents(HashMismatch)
  {
    var t := Trace(chunks, ending, key, fns);
    TraceIndexed(chunks, ending, key, fns);
    EndingSpelled(ending, key, fns);
    forall i | 0 <= i < |t| && t[i].SetUpgradeResponse? && t[i].head.acceptHash != fns.hashKey(key)
      ensures t[i + 1..] == FailureEvents(HashMismatch)
    {
      TraceTail(chunks, ending, key, fns, i);
    }
  }

  /** A response whose accept hash does not match is answered by the
      UpgradeException path: failure, full disconnect, and no completion. */
  lemma {:induction false} MismatchedHashFails(pending: seq<FillResult>, fed: seq<int>, step: seq<int> -> Option<ResponseHead>,
                            key: string, fns: HandshakeFunctions)
    ensures var run := ReadRun(pending, fed, step, key, fns);
      forall i :: 0 <= i < |run.events| && run.events[i].SetUpgradeResponse?
                  && run.events[i].head.acceptHash != fns.hashKey(key) ==>
        run.events[i + 1..] == FailureEvents(HashMismatch)
  {
    var chunks, ending := Grammar(pending, fed, step, key, fns);
    TraceMismatches(chunks, ending, key, fns);
  }

  /** In a trace, nothing after the response is a fill. */
  lemma {:induction false} TraceNoFillAfterResponse(chunks: seq<int>, ending: Ending, key: string, fns: HandshakeFunctions)
    ensures var t := Trace(chunks, ending, key, fns);
      forall i, j :: 0 <= i < j < |t| && t[i].SetUpgradeResponse? ==> !t[j].Fill?
  {
    var t := Trace(chunks, ending, key, fns);
    TraceIndexed(chunks, ending, key, fns);
    EndingSpelled(ending, key, fns);
    forall i, j | 0 <= i < j < |t| && t[i].SetUpgradeResponse?
      ensures !t[j].Fill?
    {
      TraceTail(chunks, ending, key, fns, i);
      TraceTail(chunks, ending, key, fns, j);
    }
  }

  /** Once a response has been handed to the client, read fills no more. */
  lemma {:induction false} NoFillAfterResponse(pending: seq<FillResult>, fed: seq<int>, step: seq<int> -> Option<ResponseHead>,
                            key: string, fns: HandshakeFunctions)
    ensures var run := ReadRun(pending, fed, step, key, fns);
      forall i, j :: 0 <= i < j < |run.events| && run.events[i].SetUpgradeResponse? ==> !run.events[j].Fill?
  {
    var chunks, ending := Grammar(pending, fed, step, key, fns);
    TraceNoFillAfterResponse(chunks, ending, key, fns);
  }

  /** An event of read itself, not of the callback around it. */
  predicate ReadEvent(e: Event)
  {
    !e.Acquire? && !e.Release? && !e.FillInterested?
  }

  /** The fills of the chunks are all fills. */
  lemma ChunkFillsAreFills(chunks: seq<int>)
    ensures forall e :: e in ChunkFills(chunks) ==> e.Fill?
  {
    forall e | e in ChunkFills(chunks)
      ensures e.Fill?
    {
      var i :| 0 <= i < |ChunkFills(chunks)| && ChunkFills(chunks)[i] == e;
    }
  }

  /** The ending never touches the buffer pool or read interest. */
  lemma EndingLeavesCallbackEvents(ending: Ending, key: string, fns: HandshakeFunctions)
    ensures forall e :: e in EndingEvents(ending, key, fns) ==> ReadEvent(e)
  {
    EndingSpelled(ending, key, fns);
  }

  /** A trace never touches the buffer pool or read interest. */
  lemma {:induction false} TraceLeavesCallbackEvents(chunks: seq<int>, ending: Ending, key: string, fns: HandshakeFunctions)
    ensures forall e :: e in Trace(chunks, ending, key, fns) ==> ReadEvent(e)
  {
    ChunkFillsAreFills(chunks);
    EndingLeavesCallbackEvents(ending, key, fns);
    forall e | e in Trace(chunks, ending, key, fns)
      ensures ReadEvent(e)
    {
      assert e in ChunkFills(chunks) || e in EndingEvents(ending, key, fns);
    }
  }

  /** read never touches the buffer pool or read interest: onFillable does. */
  lemma {:induction false} ReadLeavesCallbackEvents(pending: seq<FillResult>, fed: seq<int>, step: seq<int> -> Option<ResponseHead>,
                                 key: string, fns: HandshakeFunctions)
    ensures var run := ReadRun(pending, fed, step, key, fns);
      forall e :: e in run.events ==> !e.Acquire? && !e.Release? && !e.FillInterested?
  {
    var chunks, ending := Grammar(pending, fed, step, key, fns);
    TraceLeavesCallbackEvents(chunks, ending, key, fns);
  }

  lemma {:induction false} CountNone(events: seq<Event>, p: Event -> bool)
    requires forall e :: e in events ==> !p(e)
    ensures Count(events, p) == 0
  {
    if events != [] {
      CountNone(events[1..], p);
    }
  }

  /** One readiness callback borrows exactly one buffer and gives it back
      exactly once, after everything read did; read interest is re-armed,
      once and as the last step, exactly when read asked for more. */
  lemma {:induction false} OnFillableBalanced(pending: seq<FillResult>, fed: seq<int>, step: seq<int> -> Option<ResponseHead>,
                           key: string, fns: HandshakeFunctions)
    ensures var run := ReadRun(pending, fed, step, key, fns);
      var events := OnFillableEvents(run);
      && events[0] == Acquire && events[|run.events| + 1] == Release
      && Count(events, IsAcquire) == 1
      && Count(events, IsRelease) == 1
      && Count(events, IsFillInterested) == (if run.readMore then 1 else 0)
      && (run.readMore <==> Last(events) == FillInterested)
  {
    var run := ReadRun(pending, fed, step, key, fns);
    ReadLeavesCallbackEvents(pending, fed, step, key, fns);
    var more: seq<Event> := if run.readMore then [FillInterested] else [];
    assert OnFillableEvents(run) == [Acquire] + run.events + [Release] + more;
    CountAroundRead(run.events, more, IsAcquire);
    CountAroundRead(run.events, more, IsRelease);
    CountAroundRead(run.events, more, IsFillInterested);
    if run.readMore {
      CountCons(FillInterested, [], IsAcquire);
      CountCons(FillInterested, [], IsRelease);
      CountCons(FillInterested, [], IsFillInterested);
    }
  }

  /** Counting over a callback: the acquire, the release and what follows
      them, when read's own events never match. */
  lemma {:induction false} CountAroundRead(events: seq<Event>, more: seq<Event>, p: Event -> bool)
    requires forall e :: e in events ==> !p(e)
    ensures Count([Acquire] + events + [Release] + more, p)
      == (if p(Acquire) then 1 else 0) + (if p(Release) then 1 else 0) + Count(more, p)
  {
    CountNone(events, p);
    CountAppend([Acquire] + events + [Release], more, p);
    CountAppend([Acquire] + events, [Release], p);
    CountAppend([Acquire], events, p);
    CountCons(Acquire, [], p);
    CountCons(Release, [], p);
  }

  /** One readiness callback tells the client at most once how the
      handshake ended, and not at all when it re-arms read interest. */
  lemma {:induction false} CallbackOutcomes(pending: seq<FillResult>, fed: seq<int>, step: seq<int> -> Option<ResponseHead>,
                         key: string, fns: HandshakeFunctions)
    ensures var run := ReadRun(pending, fed, step, key, fns);
      && Count(OnFillableEvents(run), IsOutcome) <= 1
      && (run.readMore ==> Count(OnFillableEvents(run), IsOutcome) == 0)
  {
    var run := ReadRun(pending, fed, step, key, fns);
    AtMostOneOutcome(pending, fed, step, key, fns);
    ReadMoreIffZeroFill(pending, fed, step, key, fns);
    var more: seq<Event> := if run.readMore then [FillInterested] else [];
    CountAppend([Acquire] + run.events + [Release], more, IsOutcome);
    CountAppend([Acquire] + run.events, [Release], IsOutcome);
    CountAppend([Acquire], run.events, IsOutcome);
    CountCons(Acquire, [], IsOutcome);
    CountCons(Release, [], IsOutcome);
    if run.readMore {
      CountCons(FillInterested, [], IsOutcome);
    }
    assert OnFillableEvents(run) == [Acquire] + run.events + [Release] + more;
  }

  /** Over any number of readiness callbacks, every borrowed buffer is given
      back, and the client is told at most once how the handshake ended. */
  lemma {:induction false} CallbacksBalanced(callbacks: nat, pending: seq<FillResult>, fed: seq<int>,
                                             step: seq<int> -> Option<ResponseHead>, key: string, fns: HandshakeFunctions)
    ensures var events := Callbacks(callbacks, pending, fed, step, key, fns);
      && Count(events, IsAcquire) == Count(events, IsRelease)
      && Count(events, IsOutcome) <= 1
  {
    if callbacks > 0 {
      var run := ReadRun(pending, fed, step, key, fns);
      var first := OnFillableEvents(run);
      OnFillableBalanced(pending, fed, step, key, fns);
      CallbackOutcomes(pending, fed, step, key, fns);
      assert Count(first, IsAcquire) == 1 && Count(first, IsRelease) == 1;
      if run.readMore {
        var later := Callbacks(callbacks - 1, run.rest, run.fed, step, key, fns);
        assert Callbacks(callbacks, pending, fed, step, key, fns) == first + later;
        CallbacksBalanced(callbacks - 1, run.rest, run.fed, step, key, fns);
        CountAppend(first, later, IsAcquire);
        CountAppend(first, later, IsRelease);
        CountAppend(first, later, IsOutcome);
      } else {
        assert Callbacks(callbacks, pending, fed, step, key, fns) == first by {
          assert first + [] == first;
        }
      }
    }
  }

  /** Header values and their tokens, flattened in order. */
  function AllTokens(values: seq<string>, fns: HandshakeFunctions): seq<string>
  {
    if values == [] then [] else fns.tokenize(values[0]) + AllTokens(values[1..], fns)
  }

  lemma ParseAllAppend(a: seq<string>, b: seq<string>, fns: HandshakeFunctions)
    ensures ParseAll(a + b, fns) == ParseAll(a, fns) + ParseAll(b, fns)
  {
    assert |ParseAll(a + b, fns)| == |ParseAll(a, fns) + ParseAll(b, fns)|;
  }

  /** The stored extension list is ExtensionConfig.parse of every token of
      every header value, in header order and token order. */
  lemma {:induction false} ExtensionsOfFlattens(values: seq<string>, fns: HandshakeFunctions)
    ensures ExtensionsOf(values, fns) == ParseAll(AllTokens(values, fns), fns)
  {
    if values != [] {
      ExtensionsOfFlattens(values[1..], fns);
      ParseAllAppend(fns.tokenize(values[0]), AllTokens(values[1..], fns), fns);
    }
  }

  /** Header values seen in two groups give the two groups' lists one after the other. */
  lemma {:induction false} ExtensionsOfAppend(a: seq<string>, b: seq<string>, fns: HandshakeFunctions)
    ensures ExtensionsOf(a + b, fns) == ExtensionsOf(a, fns) + ExtensionsOf(b, fns)
  {
    if a == [] {
      assert a + b == b;
    } else {
      assert (a + b)[1..] == a[1..] + b;
      ExtensionsOfAppend(a[1..], b, fns);
    }
  }
}
