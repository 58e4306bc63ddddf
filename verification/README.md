# MTProto client session layer in Dafny

This project models two pieces of the TelegramQt client's MTProto session
layer and proves properties of them:

- **the header codec**: the fixed-layout encoding of the 16-byte inner
  `MessageHeader` (message id, sequence number, content length) and of the
  32-byte `FullMessageHeader` (server salt, session id, message id, sequence
  number, content length) of an MTProto encrypted message;
- **the client `RpcLayer`**: it dispatches decrypted envelopes on their
  leading TL constructor id, unpacks `msg_container`s recursively, matches
  `rpc_result` replies against the table of sent operations, records a server
  salt that differs from the active one, recovers from a bad-server-salt
  "notice of ignored error message" by committing that salt and resending,
  prefixes the first request of a session with `initConnection`, and fails
  every outstanding operation when the connection is lost.

Files:

- `wrappers.dfy`: `Option`.
- `raw_stream.dfy` (module `RawStream`): bytes, `u32`/`u64`, little-endian
  fixed-width encode and read, with their round trips.
- `message_header.dfy` (module `MTProto`): the two header codecs.
- `client_rpc_layer.dfy` (module `ClientRpcLayer`): the layer state and its
  transitions as pure functions, and `OnConnectionFailed` as a loop.
- `rpc_layer_properties.dfy` (module `RpcLayerProperties`): properties that
  relate several calls: container order against a reference that dispatches
  the items one by one, nested containers against the flat list of
  envelopes they reach, replies against sends, salt recovery end to end, and
  the one-time init-connection prefix.

The layer state is one immutable `Layer` value: session id, active salt,
last received salt, sequence counter, the table from message id to operation
handle, a heap from handle to operation (request bytes, request id, state),
and the log of packets the transport accepted. Operation objects are shared
with the caller and one object can sit under several message ids, so the
table holds handles, not operations. Everything the layer only calls out to
is a field of `Collaborators`:

- the mapping from a 32-bit constructor id to an envelope kind;
- the decoder of an ignored-message notification;
- the transport's `sendPackage`, a function from the packet (salt, sequence
  counter, bytes) to the message id it assigns, where 0 means failure;
- the bytes of the init-connection prefix.

## Behaviour that follows the code

- `processRpcQuery` returns `false` on every path (ClientRpcLayer.cpp:101,
  :73), and throws away the result of `processContainer` (:63). So a
  container is "fully processed" exactly when it holds no items, and every
  envelope reports `false`.
- A reply never removes its table entry (:70-75), and a resend registers the
  operation under the new id without removing the old one (:203, :217). The
  table only shrinks on connection loss, where it is cleared (:227).
- No length check is visible in the layer or the codec. Short reads are
  modelled as described under "Left out".
- The container loop reads each item and dispatches it before reading the
  next (:129-141). Reading never depends on what a dispatch did, so the model
  reads all items first (`ReadItems`) and then dispatches them in order
  (`DispatchAll`), which has the same effect.
- A resend goes through `sendRpc` (:217), which decides on the prefix by the
  counter alone (:193). So when the session's first request is ignored for a
  bad salt, the resend carries no init-connection prefix
  (`FirstRequestResentWithoutInitConnection`). The model keeps this.
- A differing salt is recorded even when the header's session id is wrong,
  because the salt check comes first (:166-174).

## Model

| member | source | states |
|---|---|---|
| MTProto.WriteMessageHeader | TelegramQt/MTProto/MessageHeader.cpp:34-40 | the stream keeps its content as a prefix and grows by 16 bytes: message id in bytes 0-7, sequence number in 8-11, content length in 12-15 |
| MTProto.ReadMessageHeader | TelegramQt/MTProto/MessageHeader.cpp:26-32 | succeeds iff 16 bytes are left; the header read is the one whose encoding is exactly those 16 bytes, and the rest is left unread |
| MTProto.MessageHeaderRoundTrip | TelegramQt/MTProto/MessageHeader.cpp:26-40 | reading back a written header gives the same header, for every field value, and leaves exactly what followed |
| MTProto.MessageHeaderBytesRoundTrip | TelegramQt/MTProto/MessageHeader.cpp:26-40 | the other direction: any 16 bytes are the encoding of the header read from them |
| MTProto.WriteMessageHeaderAppends | TelegramQt/MTProto/MessageHeader.cpp:34-40 | writing onto a non-empty stream appends exactly the bytes written onto an empty one |
| MTProto.WriteFullMessageHeader | TelegramQt/MTProto/MessageHeader.cpp:52-60 | the stream keeps its content and grows by 32 bytes: salt, session id, message id (8 bytes each), sequence number, content length (4 bytes each), in that order |
| MTProto.ReadFullMessageHeader | TelegramQt/MTProto/MessageHeader.cpp:42-50 | succeeds iff 32 bytes are left; the header read encodes to exactly those bytes, the rest is untouched |
| MTProto.FullMessageHeaderRoundTrip | TelegramQt/MTProto/MessageHeader.cpp:42-60 | decode after encode is the identity over the full range of all five fields, consuming exactly 32 bytes |
| MTProto.FullMessageHeaderBytesRoundTrip | TelegramQt/MTProto/MessageHeader.cpp:42-60 | encode after decode gives back the 32 bytes read |
| ClientRpcLayer.SetSessionId | TelegramQt/ClientRpcLayer.cpp:47-50 | the session id becomes the new one and nothing else changes |
| ClientRpcLayer.ProcessDecryptedMessageHeader | TelegramQt/ClientRpcLayer.cpp:164-176 | accepted iff the header's session id is the layer's; a salt different from the active one is recorded as received even for a wrong session; the active salt and everything else are unchanged |
| ClientRpcLayer.OutgoingPacket | TelegramQt/ClientRpcLayer.cpp:191-197 | the packet goes out under the active salt and counter; at counter 0 the request follows the init-connection prefix, at any other counter it goes alone (the converse, prefix only at 0, is `InitConnectionIffCounterZero`) |
| ClientRpcLayer.SendRpc | TelegramQt/ClientRpcLayer.cpp:188-205 | accepted iff the transport returns a non-zero id; on refusal the layer is unchanged; on success the packet is logged, the counter advances, the operation's request id is the new id, the table maps the new id to the operation, and every other entry and operation is unchanged |
| ClientRpcLayer.ResendRpcMessage | TelegramQt/ClientRpcLayer.cpp:207-218 | an unknown id returns false and changes nothing; a known id is exactly `SendRpc` of the operation registered under it, so a refused resend leaves the layer unchanged and an accepted one keeps every other entry, operation and the salt, and leaves the operation reachable under both the old and the new id |
| ClientRpcLayer.ProcessIgnoredMessageNotification | TelegramQt/ClientRpcLayer.cpp:145-162 | for IncorrectServerSalt the active salt becomes the last received salt and the referenced message is resent under it; any other error code leaves the layer unchanged |
| ClientRpcLayer.ReadNewSession | TelegramQt/ClientRpcLayer.cpp:104-118 | reads first message id, unique id and server salt, 8 bytes each, in that order, iff 24 bytes are left |
| ClientRpcLayer.ProcessRpcResult | TelegramQt/ClientRpcLayer.cpp:65-83 | never reports success, never changes the table, and keeps every layer invariant |
| ClientRpcLayer.HandleEnvelope | TelegramQt/ClientRpcLayer.cpp:58-100 | every arm but msg_container keeps the envelope invariants; rpc_result keeps the table, the salt and the send log; every arm other than rpc_result and the two bad-message notices leaves the layer unchanged |
| ClientRpcLayer.ProcessRpcQuery | TelegramQt/ClientRpcLayer.cpp:52-102 | every envelope reports false; no envelope changes the session or the received salt, drops a table entry, creates an operation, changes a request's bytes, or moves the counter or the sent log backwards |
| ClientRpcLayer.ProcessContainer | TelegramQt/ClientRpcLayer.cpp:120-143 | fully processed iff its item count is readable and zero; keeps the same invariants as any envelope |
| ClientRpcLayer.ReadItems | TelegramQt/ClientRpcLayer.cpp:129-140 | never more items than announced; all announced items were read iff the flag says so; each item payload is at least one header shorter than the bytes it came from |
| ClientRpcLayer.DispatchAll | TelegramQt/ClientRpcLayer.cpp:127-142 | the conjunction of the item results, starting from true: true iff there were no items; keeps the same invariants as any envelope |
| ClientRpcLayer.OnConnectionFailed | TelegramQt/ClientRpcLayer.cpp:220-228 | every operation in the table that was not finished fails with "connection failed"; finished operations and operations outside the table keep their state; the table is empty; nothing else changes |
| RpcLayerProperties.ItemsReadBack | TelegramQt/ClientRpcLayer.cpp:129-140 | well-formed items read back as exactly their bodies, all of them and in order: each item consumes its id, sequence number, size and exactly size bytes, and bytes after the last item are never read |
| RpcLayerProperties.DispatchAllIsRun | TelegramQt/ClientRpcLayer.cpp:127-142 | the container loop has the effect of the reference that dispatches each payload in turn whatever earlier ones reported, and reports true iff there were no payloads |
| RpcLayerProperties.ContainerDispatchesInOrder | TelegramQt/ClientRpcLayer.cpp:120-143 | a container of n items has the effect of dispatching its item bodies one after another, ignores bytes after the last item, and reports true iff n is 0 |
| RpcLayerProperties.ContainerEnvelopeDispatchesInOrder | TelegramQt/ClientRpcLayer.cpp:62-64 | a msg_container envelope is dispatched as its item bodies in order and reports false |
| RpcLayerProperties.DispatchIsFlat | TelegramQt/ClientRpcLayer.cpp:52-143 | nested containers have the same effect as dispatching, left to right, the non-container envelopes they reach |
| RpcLayerProperties.ContainerIsFlat | TelegramQt/ClientRpcLayer.cpp:120-143 | a container body has the same effect as the flat list of envelopes it reaches |
| RpcLayerProperties.DispatchAllIsFlat | TelegramQt/ClientRpcLayer.cpp:129-141 | the container loop has the same effect as the flat list of envelopes its items reach |
| RpcLayerProperties.LeavesAreNotContainers | TelegramQt/ClientRpcLayer.cpp:62-64 | opening every container leaves no container among the envelopes reached |
| RpcLayerProperties.WrappingInContainerIsTransparent | TelegramQt/ClientRpcLayer.cpp:129-141 | an envelope wrapped as the only item of a container has the same effect as the envelope alone |
| RpcLayerProperties.RpcResultFinishesOperation | TelegramQt/ClientRpcLayer.cpp:65-83 | rpc_result for a registered id finishes that operation with exactly the remaining bytes; no other operation, no table entry and no other field changes |
| RpcLayerProperties.RpcResultForUnknownIdChangesNothing | TelegramQt/ClientRpcLayer.cpp:70-74 | rpc_result for an unregistered id returns false and leaves the whole layer unchanged |
| RpcLayerProperties.ReplyToSentRequestFinishesIt | TelegramQt/ClientRpcLayer.cpp:201-203 | after an accepted send, a reply to the id the transport assigned finishes that operation with the reply, and its table entry stays |
| RpcLayerProperties.LogOnlyEnvelopesChangeNothing | TelegramQt/ClientRpcLayer.cpp:58-118 | acks, gzip-packed data, pongs, new_session_created and unknown tags leave the layer unchanged |
| RpcLayerProperties.OtherIgnoredErrorsChangeNothing | TelegramQt/ClientRpcLayer.cpp:158-161 | a bad-message notice whose code is not IncorrectServerSalt leaves the layer unchanged |
| RpcLayerProperties.BadServerSaltRecovery | TelegramQt/ClientRpcLayer.cpp:152-157 | after a header reports a new salt, a bad-salt notice for a registered message makes that salt active and resends the same operation under it; on success it is reachable under both ids with the new request id |
| RpcLayerProperties.InitConnectionIffCounterZero | TelegramQt/ClientRpcLayer.cpp:192-197 | the init-connection prefix is prepended iff the sequence counter is 0 |
| RpcLayerProperties.InitConnectionOnlyOnce | TelegramQt/ClientRpcLayer.cpp:192-197 | after one accepted send, any later layer whose counter has not fallen back sends without the prefix; headers, envelopes, sends, session changes and connection loss all keep the counter from falling |
| RpcLayerProperties.Apply | TelegramQt/ClientRpcLayer.cpp:47-205 | receiving a header (new salt or not), dispatching an envelope, sending and changing the session keep the layer valid and never move the counter back |
| RpcLayerProperties.Trace | TelegramQt/ClientRpcLayer.cpp:47-205 | any run of those events keeps the layer valid and never moves the counter back |
| RpcLayerProperties.NoInitConnectionAfterFirstSend | TelegramQt/ClientRpcLayer.cpp:188-205 | send, then any run of headers, envelopes, sends and session changes, then send again: the second packet carries no prefix |
| RpcLayerProperties.FirstRequestResentWithoutInitConnection | TelegramQt/ClientRpcLayer.cpp:152-157 | the session's first request goes out with the prefix; when it is ignored for a bad salt it is resent under the new salt without the prefix, since the counter has left 0 |
| RpcLayerProperties.SetSessionIdSelectsHeaders | TelegramQt/ClientRpcLayer.cpp:171-175 | after setSessionId, a header is accepted iff it names the new session |

## Left out

- Short input: the raw stream class (CRawStream) is not part of this model. A
  fixed-width read that finds too few bytes reports `None`. An envelope whose
  tag cannot be read changes nothing. An `rpc_result` whose message id cannot
  be read keeps the id at its initial 0, which is never in the table. A
  container whose count cannot be read changes nothing and reports false. A
  container whose item runs short dispatches the items before it, stops there
  and reports false. The source's loop (ClientRpcLayer.cpp:129-141) instead
  goes on reading from the exhausted stream; what those reads yield is up to
  the raw stream class.
- Byte order: little-endian is assumed for the raw stream, as MTProto
  prescribes.
- Constructor ids and the ignored-message notification wire format are not
  part of this model. Tags come from `Collaborators.tagOf`, notifications from
  `Collaborators.readNotification`.
- The contents of the init-connection prefix (ClientRpcLayer.cpp:230-249) and
  `setAppInformation` (:42-45) are left out: they depend on application
  information, string encoding and the build-time layer number. The prefix is
  opaque bytes.
- `sendPackage` and sequence numbering belong to a base class that is not part
  of this model. The transport is a function from packet to message id. An
  accepted send advances the counter by one; a refused send changes nothing.
- ClientRpcLayer.SendRpc: its contract states only that the counter grows, not the exact
  increment, because that policy is the base class's.
- ClientRpcLayer.ProcessRpcResult: its own contract states only the
  invariants. The exact effect on the finished operation is stated by
  RpcLayerProperties.RpcResultFinishesOperation and
  RpcLayerProperties.RpcResultForUnknownIdChangesNothing.
- `setConnection` on the operation (ClientRpcLayer.cpp:202) is not modelled.
  It records transport identity for diagnostics only.
- Completing an operation is modelled as replacing its state with
  `Finished(reply)`. The operation class is not part of this model, so RPC
  error detection inside the reply is left out, and so is any guard against
  finishing twice.
- The key-part pass-throughs (ClientRpcLayer.cpp:178-186) and all logging are
  left out. The ack, gzip and pong branches only log, and the model treats
  them as no-ops.
- The unused `serverMessageId` argument and the item ids and sequence numbers
  read inside a container are read but never used.
- The sequence counter is an unbounded natural number, so 32-bit wrap-around
  is not modelled.
- Concurrency and signals: the layer is single-threaded. Completion signals to
  the holder of an operation are modelled as the state change alone.
