/**
  The client side of the MTProto session layer (RpcLayer): it dispatches
  decrypted envelopes on their leading tag, unpacks message containers,
  matches rpc_result replies against the table of sent operations, tracks
  the server salt, recovers from a bad-server-salt notice by resending, and
  fails every outstanding operation when the connection is lost.

  The layer's whole state is one immutable `Layer` value. Operation objects
  are shared between the layer and the caller, and the same object can be
  registered under several message ids, so the table maps message ids to
  `Handle`s and a separate `heap` maps each handle to the operation's state.

  Everything the layer only calls out to is a field of `Collaborators`: how a
  32-bit TL constructor id names a tag, how an ignored-message notification
  is decoded, the transport's `sendPackage`, and the bytes of the
  init-connection prefix.
 */
module ClientRpcLayer {
  import opened Wrappers
  import opened RawStream
  import opened MTProto

  /** The identity of a PendingRpcOperation object. */
  type Handle = nat

  /** The error text an operation carries when the connection fails. */
  const ConnectionFailedText: string := "connection failed"

  datatype OperationState = Pending | Finished(replyData: Bytes) | FinishedWithError(details: string)

  datatype Operation = Operation(requestData: Bytes, requestId: u64, state: OperationState) {
    predicate IsFinished() {
      !state.Pending?
    }
  }

  /** What the layer hands to the transport: the payload, under the active salt and sequence counter. */
  datatype Packet = Packet(serverSalt: u64, sequenceNumber: nat, data: Bytes)

  /** A packet the transport accepted, with the message id it assigned. */
  datatype SentPacket = SentPacket(messageId: u64, packet: Packet)

  /** The envelope kinds the dispatcher tells apart; every other constructor id is `OtherTag`. */
  datatype Tag =
    | NewSessionCreated
    | MsgContainer
    | RpcResult
    | MsgsAck
    | BadMsgNotification
    | BadServerSalt
    | GzipPacked
    | Pong
    | OtherTag(value: u32)

  datatype ErrorCode = IncorrectServerSalt | OtherErrorCode(code: int)

  /** A notice of ignored error message: why the server ignored which message. */
  datatype IgnoredMessageNotification = IgnoredMessageNotification(errorCode: ErrorCode, messageId: u64)

  /** The fields of a new_session_created notice; the client only logs them. */
  datatype NewSession = NewSession(firstMessageId: u64, uniqueId: u64, serverSalt: u64)

  datatype Collaborators = Collaborators(
    tagOf: u32 -> Tag,
    readNotification: Bytes -> IgnoredMessageNotification,
    /** The message id the transport assigns to a packet; 0 means it could not send. */
    sendPackage: Packet -> u64,
    initConnection: Bytes)

  datatype Layer = Layer(
    sessionId: u64,
    /** The salt used for sending. */
    serverSalt: u64,
    /** The last salt seen in an incoming header that differed from `serverSalt`. */
    receivedServerSalt: u64,
    sequenceNumber: nat,
    operations: map<u64, Handle>,
    heap: map<Handle, Operation>,
    sent: seq<SentPacket>)

  /** The layer after handling one input, and whether the handler reports it fully processed. */
  datatype Step = Step(layer: Layer, processed: bool)

  /** Every table entry names a live operation, and 0 (the transport's failure id) is never a key. */
  predicate Valid(l: Layer) {
    && 0 !in l.operations
    && l.operations.Values <= l.heap.Keys
  }

  /**
    What every incoming envelope may and may not do to the layer: the session
    and the observed salt stay, the sequence counter and the sent log only
    grow, no table entry is dropped, no operation is created, and no request
    changes its bytes.
   */
  ghost predicate Evolves(l: Layer, l': Layer) {
    && Valid(l')
    && l'.sessionId == l.sessionId
    && l'.receivedServerSalt == l.receivedServerSalt
    && l'.sequenceNumber >= l.sequenceNumber
    && l.sent <= l'.sent
    && l.operations.Keys <= l'.operations.Keys
    && l'.heap.Keys == l.heap.Keys
    && (forall h :: h in l.heap ==> l'.heap[h].requestData == l.heap[h].requestData)
  }

  function SetSessionId(l: Layer, newSessionId: u64): (r: Layer)
    ensures r.sessionId == newSessionId
    ensures r.(sessionId := l.sessionId) == l
  {
    l.(sessionId := newSessionId)
  }

  /**
    A decrypted header arrives: a salt different from the active one is
    remembered (even when the session is wrong) but not used yet; the header
    is accepted exactly when it names this session.
   */
  function ProcessDecryptedMessageHeader(l: Layer, header: FullMessageHeader): (r: Step)
    ensures r.processed <==> header.sessionId == l.sessionId
    ensures r.layer.serverSalt == l.serverSalt
    ensures header.serverSalt != l.serverSalt ==> r.layer.receivedServerSalt == header.serverSalt
    ensures header.serverSalt == l.serverSalt ==> r.layer.receivedServerSalt == l.receivedServerSalt
    ensures r.layer.(receivedServerSalt := l.receivedServerSalt) == l
  {
    var l' := if l.serverSalt != header.serverSalt then l.(receivedServerSalt := header.serverSalt) else l;
    Step(l', l.sessionId == header.sessionId)
  }

  /** The packet sendRpc hands to the transport for operation h: init-connection first on a fresh session. */
  function OutgoingPacket(l: Layer, c: Collaborators, h: Handle): (r: Packet)
    requires h in l.heap
    ensures r.serverSalt == l.serverSalt && r.sequenceNumber == l.sequenceNumber
    ensures l.sequenceNumber == 0 ==> r.data == c.initConnection + l.heap[h].requestData
    ensures l.sequenceNumber != 0 ==> r.data == l.heap[h].requestData
  {
    var request := l.heap[h].requestData;
    Packet(l.serverSalt, l.sequenceNumber, if l.sequenceNumber == 0 then c.initConnection + request else request)
  }

  /**
    Send operation h. When the transport refuses (id 0) nothing changes;
    otherwise the counter advances, the operation learns its new request id
    and the table gains that id, every other entry as it was.
   */
  function SendRpc(l: Layer, c: Collaborators, h: Handle): (r: Step)
    requires Valid(l) && h in l.heap
    ensures Evolves(l, r.layer)
    ensures r.processed <==> c.sendPackage(OutgoingPacket(l, c, h)) != 0
    ensures !r.processed ==> r.layer == l
    ensures r.processed ==>
      var id := c.sendPackage(OutgoingPacket(l, c, h));
      && r.layer.sent == l.sent + [SentPacket(id, OutgoingPacket(l, c, h))]
      && r.layer.sequenceNumber > l.sequenceNumber
      && r.layer.serverSalt == l.serverSalt
      && r.layer.operations.Keys == l.operations.Keys + {id}
      && r.layer.operations[id] == h
      && (forall k :: k in l.operations && k != id ==> r.layer.operations[k] == l.operations[k])
      && r.layer.heap[h] == l.heap[h].(requestId := id)
      && (forall g :: g in l.heap && g != h ==> r.layer.heap[g] == l.heap[g])
  {
    var packet := OutgoingPacket(l, c, h);
    var messageId := c.sendPackage(packet);
    if messageId == 0 then Step(l, false)
    else
      var l' := l.(
        sequenceNumber := l.sequenceNumber + 1,
        sent := l.sent + [SentPacket(messageId, packet)],
        heap := l.heap[h := l.heap[h].(requestId := messageId)],
        operations := l.operations[messageId := h]);
      Step(l', true)
  }

  /**
    Resend the operation registered under messageId. An unknown id changes
    nothing; a known one is sent again as the same operation, which on success
    stays registered under the old id and is registered under the new one.
   */
  function ResendRpcMessage(l: Layer, c: Collaborators, messageId: u64): (r: Step)
    requires Valid(l)
    ensures Evolves(l, r.layer)
    ensures messageId !in l.operations ==> r == Step(l, false)
    ensures messageId in l.operations ==>
      (r.processed <==> c.sendPackage(OutgoingPacket(l, c, l.operations[messageId])) != 0)
    ensures messageId in l.operations ==> r == SendRpc(l, c, l.operations[messageId])
    ensures !r.processed ==> r.layer == l
    ensures r.processed ==>
      && messageId in l.operations
      && var h := l.operations[messageId];
         var id := c.sendPackage(OutgoingPacket(l, c, h));
         && r.layer.sent == l.sent + [SentPacket(id, OutgoingPacket(l, c, h))]
         && r.layer.heap[h] == l.heap[h].(requestId := id)
         && r.layer.operations[messageId] == h
         && id in r.layer.operations && r.layer.operations[id] == h
  {
    if messageId !in l.operations then Step(l, false)
    else
      SendRpc(l, c, l.operations[messageId])
  }

  /**
    A notice of ignored error message. For a bad server salt the salt last
    seen in a header becomes the active one and the referenced message is
    resent; any other error code is only reported.
   */
  function ProcessIgnoredMessageNotification(l: Layer, c: Collaborators, body: Bytes): (r: Layer)
    requires Valid(l)
    ensures Evolves(l, r)
    ensures c.readNotification(body).errorCode.IncorrectServerSalt? ==>
      && r.serverSalt == l.receivedServerSalt
      && r == ResendRpcMessage(l.(serverSalt := l.receivedServerSalt), c, c.readNotification(body).messageId).layer
    ensures !c.readNotification(body).errorCode.IncorrectServerSalt? ==> r == l
  {
    var notification := c.readNotification(body);
    match notification.errorCode
    case IncorrectServerSalt =>
      var fixed := l.(serverSalt := l.receivedServerSalt);
      ResendRpcMessage(fixed, c, notification.messageId).layer
    case OtherErrorCode(_) => l
  }

  /** The three 64-bit fields of new_session_created, in wire order. */
  function ReadNewSession(body: Bytes): (r: Option<NewSession>)
    ensures r.Some? <==> |body| >= 24
    ensures r.Some? ==>
      body[..24] == EncodeU64(r.value.firstMessageId) + EncodeU64(r.value.uniqueId) + EncodeU64(r.value.serverSalt)
  {
    match ReadU64(body)
    case None => None
    case Some((firstMessageId, s1)) =>
      match ReadU64(s1)
      case None => None
      case Some((uniqueId, s2)) =>
        match ReadU64(s2)
        case None => None
        case Some((serverSalt, _)) =>
          assert body[..24] == body[..8] + s1[..8] + s2[..8];
          Some(NewSession(firstMessageId, uniqueId, serverSalt))
  }

  /** The operation is finished with the given reply; the table is left as it is. */
  function SetFinishedWithReplyData(l: Layer, h: Handle, reply: Bytes): (r: Layer)
    requires h in l.heap
  {
    l.(heap := l.heap[h := l.heap[h].(state := Finished(reply))])
  }

  /**
    rpc_result: the message id it answers, then the reply. A registered id
    finishes its operation with every remaining byte; an unregistered one is
    reported and changes nothing. A message id that cannot be read stays 0,
    which is never registered.
   */
  function ProcessRpcResult(l: Layer, body: Bytes): (r: Step)
    requires Valid(l)
    ensures Evolves(l, r.layer)
    ensures !r.processed
    ensures r.layer.operations == l.operations
  {
    var (messageId, reply) := match ReadU64(body) case Some(p) => p case None => (0, []);
    if messageId !in l.operations then Step(l, false)
    else Step(SetFinishedWithReplyData(l, l.operations[messageId], reply), false)
  }

  /**
    The handlers of every tag but msg_container: new_session_created is read
    and only logged, rpc_result settles an operation, the two bad-message
    notices go to the resend logic, and acks, gzip-packed data, pongs and
    unknown tags are only logged.
   */
  function HandleEnvelope(l: Layer, c: Collaborators, tag: Tag, body: Bytes): (r: Layer)
    requires Valid(l) && !tag.MsgContainer?
    ensures Evolves(l, r)
    ensures tag.RpcResult? ==> r.operations == l.operations && r.serverSalt == l.serverSalt && r.sent == l.sent
    ensures !tag.RpcResult? && !tag.BadMsgNotification? && !tag.BadServerSalt? ==> r == l
  {
    match tag
    case NewSessionCreated =>
      var _ := ReadNewSession(body);
      l
    case RpcResult => ProcessRpcResult(l, body).layer
    case BadMsgNotification => ProcessIgnoredMessageNotification(l, c, body)
    case BadServerSalt => ProcessIgnoredMessageNotification(l, c, body)
    case _ => l
  }

  /**
    Dispatch one envelope on its leading tag. Whatever the tag, the envelope
    is reported as not fully processed.
   */
  function ProcessRpcQuery(l: Layer, c: Collaborators, data: Bytes): (r: Step)
    requires Valid(l)
    ensures Evolves(l, r.layer)
    ensures !r.processed
    decreases |data|, 1
  {
    match ReadU32(data)
    case None => Step(l, false)
    case Some((value, body)) =>
      if c.tagOf(value).MsgContainer? then Step(ProcessContainer(l, c, body).layer, false)
      else Step(HandleEnvelope(l, c, c.tagOf(value), body), false)
  }

  /**
    msg_container: an item count, then the items, whose payloads are
    dispatched in order. The container counts as processed only when every
    announced item was read and every dispatch reported success, which, as
    no dispatch ever does, means exactly when the count is zero.
   */
  function ProcessContainer(l: Layer, c: Collaborators, body: Bytes): (r: Step)
    requires Valid(l)
    ensures Evolves(l, r.layer)
    ensures r.processed <==> ReadU32(body).Some? && ReadU32(body).value.0 == 0
    decreases |body|, 0
  {
    match ReadU32(body)
    case None => Step(l, false)
    case Some((itemsCount, items)) =>
      var read := ReadItems(items, itemsCount);
      var dispatched := DispatchAll(l, c, read.0, |items|);
      Step(dispatched.layer, read.1 && dispatched.processed)
  }

  /**
    The items of a container, in order: each is an id, a sequence number and
    a size (the layout of `MessageHeader`), then exactly `size` bytes of
    payload. Reading stops at the first item that is cut short; the flag says
    whether all `count` items were read. Reading an item never depends on
    what dispatching the earlier ones did, so reading them all first and then
    dispatching them is the same as interleaving the two.
   */
  function ReadItems(s: Bytes, count: nat): (r: (seq<Bytes>, bool))
    ensures |r.0| <= count
    ensures r.1 <==> |r.0| == count
    ensures forall i :: 0 <= i < |r.0| ==> |r.0[i]| + MessageHeaderSize <= |s|
    decreases |s|
  {
    if count == 0 then ([], true)
    else
      match ReadMessageHeader(s)
      case None => ([], false)
      case Some((item, rest)) =>
        if |rest| < item.contentLength then ([], false)
        else
          var more := ReadItems(rest[item.contentLength..], count - 1);
          ([rest[..item.contentLength]] + more.0, more.1)
  }

  /**
    Dispatch each payload in turn, whatever the earlier ones reported; the
    result is processed only when every dispatch was. `bound` is a length
    every payload is shorter than, and serves termination only.
   */
  function DispatchAll(l: Layer, c: Collaborators, payloads: seq<Bytes>, ghost bound: nat): (r: Step)
    requires Valid(l)
    requires forall i :: 0 <= i < |payloads| ==> |payloads[i]| < bound
    ensures Evolves(l, r.layer)
    ensures r.processed <==> payloads == []
    decreases bound, |payloads|
  {
    if payloads == [] then Step(l, true)
    else
      var sub := ProcessRpcQuery(l, c, payloads[0]);
      var rest := DispatchAll(sub.layer, c, payloads[1..], bound);
      Step(rest.layer, sub.processed && rest.processed)
  }

  /**
    The connection is lost: every operation in the table that has not
    finished fails with the connection error, finished ones keep their
    outcome, and the table is emptied.
   */
  method OnConnectionFailed(l: Layer) returns (r: Layer)
    requires Valid(l)
    ensures Valid(r)
    ensures r.operations == map[]
    ensures r.heap.Keys == l.heap.Keys
    ensures forall h :: h in l.heap && h in l.operations.Values && !l.heap[h].IsFinished() ==>
      r.heap[h] == l.heap[h].(state := FinishedWithError(ConnectionFailedText))
    ensures forall h :: h in l.heap && (h !in l.operations.Values || l.heap[h].IsFinished()) ==>
      r.heap[h] == l.heap[h]
    ensures r.(heap := l.heap, operations := l.operations) == l
  {
    var heap := l.heap;
    var left := l.operations.Keys;
    ghost var visited: set<Handle> := {};
    while left != {}
      invariant left <= l.operations.Keys
      invariant visited == set k | k in l.operations.Keys - left :: l.operations[k]
      invariant heap.Keys == l.heap.Keys
      invariant forall h :: h in visited && !l.heap[h].IsFinished() ==>
        heap[h] == l.heap[h].(state := FinishedWithError(ConnectionFailedText))
      invariant forall h :: h in heap && (h !in visited || l.heap[h].IsFinished()) ==> heap[h] == l.heap[h]
      decreases left
    {
      var k :| k in left;
      var h := l.operations[k];
      if !heap[h].IsFinished() {
        heap := heap[h := heap[h].(state := FinishedWithError(ConnectionFailedText))];
      }
      left := left - {k};
      visited := visited + {h};
    }
    assert visited == l.operations.Values;
    r := l.(heap := heap, operations := map[]);
  }
}
