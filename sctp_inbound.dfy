/**
 * A model of Netty's SCTP inbound byte-stream handler: a pipeline stage that
 * takes the SCTP messages of one (payload protocol identifier, stream
 * identifier) pair, checks that they are fully reassembled, and appends their
 * payload bytes to the next stage's byte buffer; every other message is
 * passed on unchanged to the next stage's message buffer.
 *
 * The identifiers are the Payload Protocol Identifier and Stream Identifier
 * fields of the SCTP DATA chunk (section 3.3.1 of RFC 4960), held as Java
 * `int`s by the handler.
 */
module SctpInbound {

  /** Java's `int`. */
  newtype int32 = x: int | -0x8000_0000 <= x < 0x8000_0000

  /** An inbound SCTP message, after the transport has parsed it. */
  datatype Message = Message(
    protocolId: int32,
    streamId: int32,
    complete: bool,     // all fragments have been reassembled upstream
    payload: seq<bv8>)

  /** The only failure of the handler: a matching message that is not complete. */
  datatype CodecError = IncompleteMessage

  datatype Result<T> = Ok(value: T) | Err(error: CodecError)

  /** The (protocol, stream) pair a handler accepts: its two final fields. */
  datatype Selector = Selector(protocolIdentifier: int32, streamIdentifier: int32)

  /**
   * What the next pipeline stage has received so far: its message buffer, its
   * byte buffer and the number of buffer-updated events fired at it.
   */
  datatype Downstream = Downstream(queue: seq<Message>, bytes: seq<bv8>, signals: nat)

  // ---------------------------------------------------------------------------
  // Specification functions
  // ---------------------------------------------------------------------------

  /** The handler's `isDecodable`: the message belongs to the selected protocol and stream. */
  predicate IsDecodable(sel: Selector, msg: Message)
  {
    msg.protocolId == sel.protocolIdentifier && msg.streamId == sel.streamIdentifier
  }

  /**
   * A selector accepts exactly one (protocol, stream) pair: whether a message
   * is decodable depends on its two identifiers only, not on its completeness
   * or its payload.
   */
  lemma SelectsOnePair(sel: Selector, m1: Message, m2: Message)
    ensures IsDecodable(sel, m1) && IsDecodable(sel, m2) ==>
              m1.protocolId == m2.protocolId && m1.streamId == m2.streamId
    ensures m1.protocolId == m2.protocolId && m1.streamId == m2.streamId ==>
              (IsDecodable(sel, m1) <==> IsDecodable(sel, m2))
    ensures IsDecodable(sel, Message(sel.protocolIdentifier, sel.streamIdentifier, m1.complete, m1.payload))
  {
  }

  /** The effect of one `messageReceived` call on the next stage. */
  function Step(sel: Selector, d: Downstream, msg: Message): (r: Result<Downstream>)
    // the only error: a selected message that is not yet reassembled
    ensures r.Err? <==> IsDecodable(sel, msg) && !msg.complete
    // every successful call fires exactly one event
    ensures r.Ok? ==> r.value.signals == d.signals + 1
    // a successful call feeds exactly one of the two sinks
    ensures r.Ok? ==> (r.value.queue == d.queue <==> IsDecodable(sel, msg))
    ensures r.Ok? && IsDecodable(sel, msg) ==> r.value.bytes == d.bytes + msg.payload
    ensures r.Ok? && !IsDecodable(sel, msg) ==>
              r.value.queue == d.queue + [msg] && r.value.bytes == d.bytes
  {
    if !IsDecodable(sel, msg) then
      Ok(Downstream(d.queue + [msg], d.bytes, d.signals + 1))
    else if !msg.complete then
      Err(IncompleteMessage)
    else
      Ok(Downstream(d.queue, d.bytes + msg.payload, d.signals + 1))
  }

  /** `messageReceived` applied to each message in arrival order, stopping at the first error. */
  function Run(sel: Selector, d: Downstream, msgs: seq<Message>): (r: Result<Downstream>)
    ensures r.Ok? ==> r.value.signals == d.signals + |msgs|
    decreases |msgs|
  {
    if msgs == [] then Ok(d)
    else
      match Step(sel, d, msgs[0])
      case Err(e) => Err(e)
      case Ok(d') => Run(sel, d', msgs[1..])
  }

  /** The messages of `msgs` that the handler passes on, in order. */
  function Forwarded(sel: Selector, msgs: seq<Message>): (r: seq<Message>)
    ensures forall i :: 0 <= i < |r| ==> !IsDecodable(sel, r[i])
    ensures |r| <= |msgs|
  {
    if msgs == [] then []
    else (if IsDecodable(sel, msgs[0]) then [] else [msgs[0]]) + Forwarded(sel, msgs[1..])
  }

  /** The messages of `msgs` that the handler turns into bytes, in order. */
  function Consumed(sel: Selector, msgs: seq<Message>): (r: seq<Message>)
    ensures forall i :: 0 <= i < |r| ==> IsDecodable(sel, r[i])
    ensures |r| <= |msgs|
  {
    if msgs == [] then []
    else (if IsDecodable(sel, msgs[0]) then [msgs[0]] else []) + Consumed(sel, msgs[1..])
  }

  /** The payloads of `msgs`, concatenated in order. */
  function Payloads(msgs: seq<Message>): seq<bv8>
  {
    if msgs == [] then [] else msgs[0].payload + Payloads(msgs[1..])
  }

  /** Every selected message in `msgs` is complete. */
  predicate AllSelectedComplete(sel: Selector, msgs: seq<Message>)
  {
    forall i :: 0 <= i < |msgs| && IsDecodable(sel, msgs[i]) ==> msgs[i].complete
  }

  // ---------------------------------------------------------------------------
  // Properties of a sequence of calls
  // ---------------------------------------------------------------------------

  lemma {:induction false} PayloadsAppend(a: seq<Message>, b: seq<Message>)
    ensures Payloads(a + b) == Payloads(a) + Payloads(b)
    decreases |a|
  {
    if a != [] {
      assert (a + b)[1..] == a[1..] + b;
      calc {
        Payloads(a + b);
        (a + b)[0].payload + Payloads((a + b)[1..]);
        a[0].payload + Payloads(a[1..] + b);
        { PayloadsAppend(a[1..], b); }
        a[0].payload + (Payloads(a[1..]) + Payloads(b));
        (a[0].payload + Payloads(a[1..])) + Payloads(b);
      }
    } else {
      assert a + b == b;
    }
  }

  /** A run of messages succeeds exactly when every selected message in it is complete. */
  lemma {:induction false} RunSucceedsIff(sel: Selector, d: Downstream, msgs: seq<Message>)
    ensures Run(sel, d, msgs).Ok? <==> AllSelectedComplete(sel, msgs)
    decreases |msgs|
  {
    if msgs != [] {
      match Step(sel, d, msgs[0])
      case Err(_) =>
      case Ok(d') =>
        RunSucceedsIff(sel, d', msgs[1..]);
        assert AllSelectedComplete(sel, msgs) <==> AllSelectedComplete(sel, msgs[1..]) by {
          if AllSelectedComplete(sel, msgs[1..]) {
            forall i | 0 <= i < |msgs| && IsDecodable(sel, msgs[i])
              ensures msgs[i].complete
            {
              if i > 0 { assert msgs[i] == msgs[1..][i - 1]; }
            }
          }
          if AllSelectedComplete(sel, msgs) {
            forall i | 0 <= i < |msgs[1..]| && IsDecodable(sel, msgs[1..][i])
              ensures msgs[1..][i].complete
            {
              assert msgs[1..][i] == msgs[i + 1];
            }
          }
        }
    }
  }

  /**
   * After a run without error the next stage's message buffer holds the
   * unselected messages and its byte buffer the payloads of the selected
   * ones, each appended in arrival order, with one event per message.
   */
  lemma {:induction false} RunDelivers(sel: Selector, d: Downstream, msgs: seq<Message>)
    requires Run(sel, d, msgs).Ok?
    ensures Run(sel, d, msgs).value ==
              Downstream(d.queue + Forwarded(sel, msgs),
                         d.bytes + Payloads(Consumed(sel, msgs)),
                         d.signals + |msgs|)
    decreases |msgs|
  {
    if msgs != [] {
      var m := msgs[0];
      var d' := Step(sel, d, m).value;
      RunDelivers(sel, d', msgs[1..]);
      var c := Consumed(sel, msgs[1..]);
      if IsDecodable(sel, m) {
        assert Consumed(sel, msgs) == [m] + c;
        PayloadsAppend([m], c);
        assert Payloads([m]) == m.payload;
      } else {
        assert Consumed(sel, msgs) == c;
      }
    }
  }

  /**
   * A failing run fails at its first selected incomplete message: every
   * message before it succeeds, and the state those calls left in the next
   * stage is `Run(sel, d, msgs[..k]).value`.
   */
  lemma {:induction false} RunFailsAtFirst(sel: Selector, d: Downstream, msgs: seq<Message>)
    requires Run(sel, d, msgs).Err?
    ensures exists k :: 0 <= k < |msgs| && IsDecodable(sel, msgs[k]) && !msgs[k].complete &&
                        AllSelectedComplete(sel, msgs[..k]) && Run(sel, d, msgs[..k]).Ok?
    decreases |msgs|
  {
    match Step(sel, d, msgs[0])
    case Err(_) =>
      assert msgs[..0] == [];
      assert AllSelectedComplete(sel, msgs[..0]) && Run(sel, d, msgs[..0]).Ok?;
    case Ok(d') =>
      RunFailsAtFirst(sel, d', msgs[1..]);
      var j :| 0 <= j < |msgs[1..]| && IsDecodable(sel, msgs[1..][j]) && !msgs[1..][j].complete &&
                AllSelectedComplete(sel, msgs[1..][..j]) && Run(sel, d', msgs[1..][..j]).Ok?;
      var pre := msgs[..j + 1];
      assert pre[0] == msgs[0] && pre[1..] == msgs[1..][..j];
      assert Run(sel, d, pre) == Run(sel, d', msgs[1..][..j]);
      forall i | 0 <= i < |pre| && IsDecodable(sel, pre[i])
        ensures pre[i].complete
      {
        if i > 0 { assert pre[i] == msgs[1..][..j][i - 1]; }
      }
      assert msgs[j + 1] == msgs[1..][j];
  }

  /** Running `a` and then `b` is the same as running `a + b`. */
  lemma {:induction false} RunAppend(sel: Selector, d: Downstream, a: seq<Message>, b: seq<Message>)
    ensures Run(sel, d, a + b) ==
              match Run(sel, d, a)
              case Err(e) => Err(e)
              case Ok(d') => Run(sel, d', b)
    decreases |a|
  {
    if a != [] {
      assert a + b != [] && (a + b)[0] == a[0];
      assert (a + b)[1..] == a[1..] + b;
      match Step(sel, d, a[0])
      case Err(_) =>
      case Ok(d1) => RunAppend(sel, d1, a[1..], b);
    } else {
      assert a + b == b;
    }
  }

  /**
   * Every message goes to exactly one sink: the forwarded and the consumed
   * messages together are the input, and no message is in both.
   */
  lemma {:induction false} Partition(sel: Selector, msgs: seq<Message>)
    ensures multiset(Forwarded(sel, msgs)) + multiset(Consumed(sel, msgs)) == multiset(msgs)
    ensures forall m :: m in Forwarded(sel, msgs) ==> m !in Consumed(sel, msgs)
    decreases |msgs|
  {
    if msgs != [] {
      Partition(sel, msgs[1..]);
      assert msgs == [msgs[0]] + msgs[1..];
    }
  }

  /**
   * Two messages of the selected pair around one of another stream: the byte
   * buffer gets the first payload then the second, the message buffer gets
   * the other message.
   */
  lemma {:induction false} InterleavedOrder(sel: Selector, d: Downstream, m1: Message, m2: Message, m3: Message)
    requires IsDecodable(sel, m1) && m1.complete
    requires !IsDecodable(sel, m2)
    requires IsDecodable(sel, m3) && m3.complete
    ensures Run(sel, d, [m1, m2, m3]) ==
              Ok(Downstream(d.queue + [m2], d.bytes + m1.payload + m3.payload, d.signals + 3))
  {
    var d1 := Downstream(d.queue, d.bytes + m1.payload, d.signals + 1);
    var d2 := Downstream(d.queue + [m2], d1.bytes, d.signals + 2);
    var d3 := Downstream(d2.queue, d1.bytes + m3.payload, d.signals + 3);
    assert Step(sel, d, m1) == Ok(d1);
    assert Step(sel, d1, m2) == Ok(d2);
    assert Step(sel, d2, m3) == Ok(d3);
    assert Run(sel, d2, [m3]) == Ok(d3) by { assert [m3][1..] == []; }
    assert Run(sel, d1, [m2, m3]) == Ok(d3) by { assert [m2, m3][1..] == [m3]; }
    assert [m1, m2, m3][1..] == [m2, m3];
  }

  // ---------------------------------------------------------------------------
  // The pipeline objects
  // ---------------------------------------------------------------------------

  /**
   * The parts of the handler context this stage writes to: the next inbound
   * message buffer, the next inbound byte buffer, and the count of
   * buffer-updated events fired.
   */
  class NextStage {
    var queue: seq<Message>
    var bytes: seq<bv8>
    var signals: nat

    constructor (queue: seq<Message>, bytes: seq<bv8>)
      ensures State() == Downstream(queue, bytes, 0)
    {
      this.queue := queue;
      this.bytes := bytes;
      this.signals := 0;
    }

    function State(): Downstream
      reads this
    {
      Downstream(queue, bytes, signals)
    }

    /** `nextInboundMessageBuffer().add(msg)` */
    method AddMessage(msg: Message)
      modifies this
      ensures queue == old(queue) + [msg]
      ensures bytes == old(bytes) && signals == old(signals)
    {
      queue := queue + [msg];
    }

    /** `nextInboundByteBuffer().writeBytes(payload)` */
    method WriteBytes(payload: seq<bv8>)
      modifies this
      ensures bytes == old(bytes) + payload
      ensures queue == old(queue) && signals == old(signals)
    {
      bytes := bytes + payload;
    }

    /** `fireInboundBufferUpdated()` */
    method FireInboundBufferUpdated()
      modifies this
      ensures signals == old(signals) + 1
      ensures queue == old(queue) && bytes == old(bytes)
    {
      signals := signals + 1;
    }
  }

  class SctpInboundByteStreamHandler {
    const protocolIdentifier: int32
    const streamIdentifier: int32

    constructor (protocolIdentifier: int32, streamIdentifier: int32)
      ensures this.protocolIdentifier == protocolIdentifier
      ensures this.streamIdentifier == streamIdentifier
    {
      this.protocolIdentifier := protocolIdentifier;
      this.streamIdentifier := streamIdentifier;
    }

    /** The handler's two identifiers, as the value the specification functions take. */
    function Key(): Selector
    {
      Selector(protocolIdentifier, streamIdentifier)
    }

    /**
     * Handles one inbound message: an unselected one is passed on, a selected
     * incomplete one is refused with nothing changed, a selected complete one
     * has its payload appended to the byte buffer; each success fires one event.
     */
    method MessageReceived(ctx: NextStage, msg: Message) returns (r: Result<()>)
      modifies ctx
      ensures r.Err? <==> IsDecodable(Key(), msg) && !msg.complete
      ensures !IsDecodable(Key(), msg) ==>
                ctx.queue == old(ctx.queue) + [msg] && ctx.bytes == old(ctx.bytes) &&
                ctx.signals == old(ctx.signals) + 1
      ensures IsDecodable(Key(), msg) && !msg.complete ==>
                ctx.State() == old(ctx.State())
      ensures IsDecodable(Key(), msg) && msg.complete ==>
                ctx.queue == old(ctx.queue) && ctx.bytes == old(ctx.bytes) + msg.payload &&
                ctx.signals == old(ctx.signals) + 1
      ensures match Step(Key(), old(ctx.State()), msg)
              case Ok(d) => r.Ok? && ctx.State() == d
              case Err(e) => r == Err(e) && ctx.State() == old(ctx.State())
    {
      if !IsDecodable(Key(), msg) {
        ctx.AddMessage(msg);
        ctx.FireInboundBufferUpdated();
        return Ok(());
      }
      if !msg.complete {
        return Err(IncompleteMessage);
      }
      ctx.WriteBytes(msg.payload);
      ctx.FireInboundBufferUpdated();
      r := Ok(());
    }
  }

  /** The worked example: a handler for protocol 37 on stream 2. */
  method Example()
  {
    var handler := new SctpInboundByteStreamHandler(37, 2);
    var ctx := new NextStage([], []);
    var a := Message(37, 2, true, [0x01, 0x02]);
    var b := Message(37, 5, true, [0xFF]);
    var c := Message(37, 2, false, [0x03]);
    var r := handler.MessageReceived(ctx, a);
    assert r.Ok? && ctx.bytes == [0x01, 0x02] && ctx.queue == [];
    r := handler.MessageReceived(ctx, b);
    assert r.Ok? && ctx.bytes == [0x01, 0x02] && ctx.queue == [b];
    r := handler.MessageReceived(ctx, c);
    assert r == Err(IncompleteMessage) && ctx.bytes == [0x01, 0x02] && ctx.queue == [b];
    assert ctx.signals == 2;
  }
}
