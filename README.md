# SCTP inbound byte-stream handler, in Dafny

This project models Netty's `SctpInboundByteStreamHandler`. The handler is an inbound pipeline
stage that sits between the SCTP transport (after fragment reassembly) and a byte-stream decoder.
It is built with two fixed Java `int`s: a payload protocol identifier and a stream identifier.
These are the Payload Protocol Identifier and Stream Identifier fields of the SCTP DATA chunk
(section 3.3.1 of RFC 4960). Each inbound `SctpMessage` is handled in one of three ways:

- **not selected** (the protocol or the stream differs): the message is added unchanged to the
  next stage's message buffer, and one buffer-updated event fires;
- **selected but incomplete**: a `CodecException` is raised, and nothing else happens;
- **selected and complete**: the payload bytes are appended to the next stage's byte buffer, and
  one buffer-updated event fires.

Everything is in `sctp_inbound.dfy`, module `SctpInbound`:

- `Message`, `Selector`, `Downstream` and `Result` are the values: an inbound message, the
  handler's pair of identifiers, what the next stage has received, and success or `IncompleteMessage`
  (which stands in for the exception).
- `IsDecodable` is the handler's `isDecodable`. The handler's implicit `this` is passed explicitly,
  as a `Selector`.
- `Step` is the functional specification of one `messageReceived` call. `Run` applies `Step` to a
  sequence of messages in arrival order and stops at the first error. `Forwarded`, `Consumed` and
  `Payloads` are the reference definitions for what a run must deliver.
- The class `NextStage` is the part of the `ChannelHandlerContext` that the handler writes to. It
  holds a message buffer, a byte buffer and an event counter, and has one method per context call
  the handler makes.
- The class `SctpInboundByteStreamHandler` has the two identifiers as `const` fields. These are
  Java's `final` fields, and Dafny keeps them from changing after the constructor.
  `MessageReceived` changes the `NextStage` it is given. Its postcondition states the new state
  outright for each of the three cases. It also ties the new state to `Step`.
- `Example` is a client of the two classes: a handler for protocol 37 on stream 2, fed three
  messages.

## Model

| member | source | states |
|---|---|---|
| `SctpInbound.IsDecodable` | codec/src/main/java/io/netty/handler/codec/sctp/SctpInboundByteStreamHandler.java:43-45 | True exactly when the message's protocol identifier and stream identifier both equal the selector's. It is a pure predicate with no reads, so it has no side effects and gives the same answer on every call. |
| `SctpInbound.SelectsOnePair` | codec/src/main/java/io/netty/handler/codec/sctp/SctpInboundByteStreamHandler.java:43-45 | `isDecodable` accepts exactly one (protocol, stream) pair. Two decodable messages carry the same identifiers. Completeness and payload play no part in the test. |
| `SctpInbound.Step` | codec/src/main/java/io/netty/handler/codec/sctp/SctpInboundByteStreamHandler.java:48-62 | One call fails exactly when the message is selected and incomplete, so completeness is only checked after the match test. A success fires exactly one event. A success feeds exactly one sink: the message queue is unchanged iff the message is selected. A selected message appends exactly its payload to the bytes; an unselected one is appended whole to the queue and leaves the bytes alone. |
| `SctpInbound.Run` | codec/src/main/java/io/netty/handler/codec/sctp/SctpInboundByteStreamHandler.java:48-62 | A run of calls without error fires one event per message. |
| `SctpInbound.RunSucceedsIff` | codec/src/main/java/io/netty/handler/codec/sctp/SctpInboundByteStreamHandler.java:49-58 | A run of messages succeeds iff every selected message in it is complete (both directions). |
| `SctpInbound.RunFailsAtFirst` | codec/src/main/java/io/netty/handler/codec/sctp/SctpInboundByteStreamHandler.java:48-62 | A failing run fails at some selected incomplete message `k`. Every selected message before `k` is complete, and the run of `msgs[..k]` succeeds. So the state left in the next stage when the error is raised is `Run` of that prefix, which `RunDelivers` describes. |
| `SctpInbound.RunDelivers` | codec/src/main/java/io/netty/handler/codec/sctp/SctpInboundByteStreamHandler.java:48-62 | After a run without error, the queue is the old queue followed by the unselected messages in arrival order. The bytes are the old bytes followed by the selected messages' payloads, concatenated in arrival order. The event count has grown by the number of messages. |
| `SctpInbound.RunAppend` | codec/src/main/java/io/netty/handler/codec/sctp/SctpInboundByteStreamHandler.java:48-62 | Handling `a + b` is the same as handling `a` and then `b` from the resulting state. An error in `a` stops everything. |
| `SctpInbound.Partition` | codec/src/main/java/io/netty/handler/codec/sctp/SctpInboundByteStreamHandler.java:49-61 | Every message goes to exactly one sink. The forwarded and consumed messages together are the input as a multiset, so nothing is dropped. No message is in both. |
| `SctpInbound.InterleavedOrder` | codec/src/main/java/io/netty/handler/codec/sctp/SctpInboundByteStreamHandler.java:48-62 | Two complete selected messages around one unselected message give the first payload then the second in the bytes, the middle message in the queue, and three events. |
| `SctpInbound.NextStage.AddMessage` | codec/src/main/java/io/netty/handler/codec/sctp/SctpInboundByteStreamHandler.java:50 | `nextInboundMessageBuffer().add` appends the message to the queue and changes nothing else. |
| `SctpInbound.NextStage.WriteBytes` | codec/src/main/java/io/netty/handler/codec/sctp/SctpInboundByteStreamHandler.java:60 | `nextInboundByteBuffer().writeBytes` appends the payload to the bytes and changes nothing else. |
| `SctpInbound.NextStage.FireInboundBufferUpdated` | codec/src/main/java/io/netty/handler/codec/sctp/SctpInboundByteStreamHandler.java:51 | `fireInboundBufferUpdated` adds one to the event count and changes nothing else. |
| `SctpInbound.SctpInboundByteStreamHandler.constructor` | codec/src/main/java/io/netty/handler/codec/sctp/SctpInboundByteStreamHandler.java:38-41 | The two identifiers are set from the arguments. As `const` fields they never change afterwards. |
| `SctpInbound.SctpInboundByteStreamHandler.MessageReceived` | codec/src/main/java/io/netty/handler/codec/sctp/SctpInboundByteStreamHandler.java:47-62 | An unselected message is appended to the queue, the bytes stay the same, and one event fires. A selected incomplete message returns `IncompleteMessage` and leaves the context exactly as it was. A selected complete message appends its payload to the bytes, leaves the queue alone, and fires one event. The new state is the one `Step` gives. |

## Left out

- The rest of the pipeline: handler dispatch, and how the context finds the next stage's buffers.
  The next stage's buffers and the event signal are the explicit `NextStage` object.
- `ByteBuf` internals. Reader and writer indices, capacity growth and reference counting are not
  modelled. A payload is its readable bytes as a `seq<bv8>`. The payload buffer's reader index
  moving forward during `writeBytes` is not modelled.
- The text of the `CodecException`, which names the completion handler to add. It is modelled as
  the single error `IncompleteMessage`.
- Reassembly of fragments. `SctpMessageCompletionHandler` is not part of this model, and only its
  result, the `complete` flag, is used here.
- The SCTP transport, association setup and event-loop threading. These are I/O and concurrency
  that the host pipeline owns.
- Range validation of the stream identifier. The constructor's doc comment asks callers for a
  valid stream number, but the code never checks it, so neither does the model.
- Run: on an error it returns only `Err`, not the next stage's state at that moment. That state is
  recovered through `RunFailsAtFirst`: the run of the prefix before the failing message succeeds,
  and its result, described by `RunDelivers`, is what the earlier calls left behind. What the
  pipeline does with later messages after the exception is not modelled.
