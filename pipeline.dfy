/**
 * The extension pipeline of the upgrade: linking the negotiated extensions
 * into the outgoing chain (towards the connection, i.e. the wire) and the
 * incoming chain (towards the session, i.e. the application), and marking
 * the reserved bits they claim on the frame generator and frame parser.
 */
module Pipeline {
  import opened HandshakeTypes
  import opened Collaborators

  /** The order Collections.reverse leaves a list in. */
  function Reversed<T>(s: seq<T>): seq<T>
  {
    seq(|s|, i requires 0 <= i < |s| => s[|s| - 1 - i])
  }

  /** No extension instance appears twice. */
  predicate Distinct(es: seq<Extension>)
  {
    forall i, j :: 0 <= i < j < |es| ==> es[i] != es[j]
  }

  /** Outgoing wiring of es[0..n-1]: es[0] passes frames to the wire-side
      sink, every later extension to the one listed before it. */
  ghost predicate OutgoingLinked(es: seq<Extension>, wire: object)
    reads es`nextOutgoing
  {
    forall i :: 0 <= i < |es| ==> es[i].nextOutgoing == (if i == 0 then wire else es[i - 1])
  }

  /** Incoming wiring of es[0..n-1]: the last extension passes frames to the
      application-side sink, every earlier one to the one listed after it. */
  ghost predicate IncomingLinked(es: seq<Extension>, app: object)
    reads es`nextIncoming
  {
    forall i :: 0 <= i < |es| ==> es[i].nextIncoming == (if i == |es| - 1 then app else es[i + 1])
  }

  /** Where outgoing frames enter: the last-listed extension, or the wire-side sink itself. */
  function OutgoingHead(es: seq<Extension>, wire: object): object
  {
    if es == [] then wire else es[|es| - 1]
  }

  /** Where incoming frames enter: the first-listed extension, or the application-side sink itself. */
  function IncomingHead(es: seq<Extension>, app: object): object
  {
    if es == [] then app else es[0]
  }

  /** Some extension of es claims the reserved bit. */
  predicate Claimed(es: seq<Extension>, bit: Rsv)
  {
    exists i :: 0 <= i < |es| && es[i].Uses(bit)
  }

  /** Collections.reverse: swap from both ends towards the middle. */
  method ReverseInPlace(list: array<Extension>)
    modifies list
    ensures list[..] == Reversed(old(list[..]))
  {
    var n := list.Length;
    var lo, hi := 0, n - 1;
    while lo < n / 2
      invariant 0 <= lo <= n / 2 && hi == n - 1 - lo
      invariant forall k :: 0 <= k < lo ==> list[k] == old(list[n - 1 - k]) && list[n - 1 - k] == old(list[k])
      invariant forall k :: lo <= k < n - lo ==> list[k] == old(list[k])
    {
      list[lo], list[hi] := list[hi], list[lo];
      lo, hi := lo + 1, hi - 1;
    }
  }

  /** The reserved-bit marking for one extension: each bit it claims is
      set in use on both the frame generator and the frame parser. */
  method MarkReservedBits(ext: Extension, generator: Generator, parser: FrameParser)
    modifies generator`rsv1InUse, generator`rsv2InUse, generator`rsv3InUse
    modifies parser`rsv1InUse, parser`rsv2InUse, parser`rsv3InUse
    ensures forall bit :: generator.InUse(bit) == (old(generator.InUse(bit)) || ext.Uses(bit))
    ensures forall bit :: parser.InUse(bit) == (old(parser.InUse(bit)) || ext.Uses(bit))
  {
    if ext.usesRsv1 {
      generator.SetRsvInUse(Rsv1, true);
      parser.SetRsvInUse(Rsv1, true);
    }
    if ext.usesRsv2 {
      generator.SetRsvInUse(Rsv2, true);
      parser.SetRsvInUse(Rsv2, true);
    }
    if ext.usesRsv3 {
      generator.SetRsvInUse(Rsv3, true);
      parser.SetRsvInUse(Rsv3, true);
    }
  }

  /** One more extension, linked to the head of an outgoing chain, extends the chain. */
  lemma LinkedSnoc(es: seq<Extension>, ext: Extension, wire: object)
    requires OutgoingLinked(es, wire) && ext.nextOutgoing == OutgoingHead(es, wire)
    ensures OutgoingLinked(es + [ext], wire) && OutgoingHead(es + [ext], wire) == ext
  {
    var all := es + [ext];
    forall k | 0 <= k < |all|
      ensures all[k].nextOutgoing == (if k == 0 then wire else all[k - 1])
    {
      if k < |es| {
        assert all[k] == es[k];
        assert es[k].nextOutgoing == (if k == 0 then wire else es[k - 1]);
      } else {
        assert all[k] == ext;
        assert ext.nextOutgoing == (if k == 0 then wire else es[k - 1]);
      }
      if 0 < k {
        assert all[k - 1] == es[k - 1];
      }
    }
    assert all[|all| - 1] == ext;
    assert OutgoingLinked(all, wire);
    assert OutgoingHead(all, wire) == ext;
  }

  /** One more extension claims what the earlier ones claimed and what it claims itself. */
  lemma ClaimedSnoc(es: seq<Extension>, ext: Extension)
    ensures forall bit :: Claimed(es + [ext], bit) == (Claimed(es, bit) || ext.Uses(bit))
  {
    forall bit
      ensures Claimed(es + [ext], bit) == (Claimed(es, bit) || ext.Uses(bit))
    {
      if Claimed(es, bit) {
        var i :| 0 <= i < |es| && es[i].Uses(bit);
        assert (es + [ext])[i] == es[i];
      }
      if ext.Uses(bit) {
        assert (es + [ext])[|es|] == ext;
      }
    }
  }

  /** The first iterator loop: link each extension to the current outgoing
      head and make it the new head, marking the bits it claims. */
  method LinkOutgoing(extensions: array<Extension>, wire: object, generator: Generator, parser: FrameParser)
    returns (outgoing: object)
    requires Distinct(extensions[..])
    modifies extensions[..]`nextOutgoing
    modifies generator`rsv1InUse, generator`rsv2InUse, generator`rsv3InUse
    modifies parser`rsv1InUse, parser`rsv2InUse, parser`rsv3InUse
    ensures OutgoingLinked(extensions[..], wire)
    ensures outgoing == OutgoingHead(extensions[..], wire)
    ensures forall bit :: generator.InUse(bit) == (old(generator.InUse(bit)) || Claimed(extensions[..], bit))
    ensures forall bit :: parser.InUse(bit) == (old(parser.InUse(bit)) || Claimed(extensions[..], bit))
  {
    ghost var es := extensions[..];
    var n := extensions.Length;
    outgoing := wire;
    var i := 0;
    while i < n
      invariant 0 <= i <= n
      invariant OutgoingLinked(es[..i], wire)
      invariant outgoing == OutgoingHead(es[..i], wire)
      invariant forall bit :: generator.InUse(bit) == (old(generator.InUse(bit)) || Claimed(es[..i], bit))
      invariant forall bit :: parser.InUse(bit) == (old(parser.InUse(bit)) || Claimed(es[..i], bit))
    {
      var ext := extensions[i];
      assert ext == es[i] && ext !in es[..i];
      ext.SetNextOutgoingFrames(outgoing);
      outgoing := ext;
      MarkReservedBits(ext, generator, parser);
      LinkedSnoc(es[..i], ext, wire);
      assert es[..i + 1] == es[..i] + [ext];
      ClaimedSnoc(es[..i], ext);
      i := i + 1;
    }
    assert es[..n] == es;
  }

  /** The second iterator loop, over the list as it now stands: the
      reverse of the list `es` as negotiated. Each extension is linked to
      the current incoming head and made the new head; read back in the
      negotiated order, that is the incoming wiring of `es`. */
  method LinkIncoming(extensions: array<Extension>, ghost es: seq<Extension>, app: object) returns (incoming: object)
    requires Distinct(es) && extensions[..] == Reversed(es)
    modifies es`nextIncoming
    ensures IncomingLinked(es, app)
    ensures incoming == IncomingHead(es, app)
  {
    var n := extensions.Length;
    incoming := app;
    var j := 0;
    assert |es| == n;
    while j < n
      invariant 0 <= j <= n && |es| == n
      invariant forall m :: n - j <= m < n ==> es[m].nextIncoming == (if m == n - 1 then app else es[m + 1])
      invariant incoming == (if j == 0 then app else es[n - j])
    {
      var ext := extensions[j];
      assert ext == es[n - 1 - j] && forall m :: n - j <= m < n ==> es[m] != ext;
      ghost var before := incoming;
      label Linking:
      ext.SetNextIncomingFrames(incoming);
      forall m | n - 1 - j <= m < n
        ensures es[m].nextIncoming == (if m == n - 1 then app else es[m + 1])
      {
        if m == n - 1 - j {
          assert es[m] == ext;
          assert es[m].nextIncoming == before;
          assert before == (if m == n - 1 then app else es[m + 1]);
        } else {
          assert es[m] != ext;
          assert es[m].nextIncoming == old@Linking(es[m].nextIncoming);
          assert old@Linking(es[m].nextIncoming) == (if m == n - 1 then app else es[m + 1]);
        }
      }
      incoming := ext;
      j := j + 1;
    }
    forall m | 0 <= m < |es|
      ensures es[m].nextIncoming == (if m == |es| - 1 then app else es[m + 1])
    {
      assert n - j <= m < n;
      assert es[m].nextIncoming == (if m == n - 1 then app else es[m + 1]);
    }
    assert IncomingLinked(es, app);
  }

  /** The extension part of the upgrade for a non-null list: the outgoing
      loop with its reserved-bit marking, the in-place reverse, then the
      incoming loop. Returns the head of the outgoing chain (for the session)
      and of the incoming chain (for the frame parser). */
  method ConnectExtensions(extensions: array<Extension>, connection: WebSocketClientConnection,
                           session: WebSocketSession)
    returns (outgoing: object, incoming: object)
    requires Distinct(extensions[..])
    modifies extensions, extensions[..]`nextOutgoing, extensions[..]`nextIncoming
    modifies connection.generator, connection.parser
    ensures extensions[..] == Reversed(old(extensions[..]))
    ensures OutgoingLinked(old(extensions[..]), connection)
    ensures outgoing == OutgoingHead(old(extensions[..]), connection)
    ensures IncomingLinked(old(extensions[..]), session)
    ensures incoming == IncomingHead(old(extensions[..]), session)
    ensures forall bit ::
      connection.generator.InUse(bit) == (old(connection.generator.InUse(bit)) || Claimed(old(extensions[..]), bit))
    ensures forall bit ::
      connection.parser.InUse(bit) == (old(connection.parser.InUse(bit)) || Claimed(old(extensions[..]), bit))
    ensures connection.parser.incomingFramesHandler == old(connection.parser.incomingFramesHandler)
  {
    ghost var es := extensions[..];
    outgoing := LinkOutgoing(extensions, connection, connection.generator, connection.parser);
    ReverseInPlace(extensions);
    incoming := LinkIncoming(extensions, es, session);
  }
}
