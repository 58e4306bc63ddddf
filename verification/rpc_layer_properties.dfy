/**
  Properties of the client RPC layer that relate several calls: containers
  against a reference that dispatches their items one after another, nested
  containers against the flat list of envelopes they reach, replies against
  sends, and the bad-salt recovery against the header that reported the salt.
 */
module RpcLayerProperties {
  import opened Wrappers
  import opened RawStream
  import opened MTProto
  import opened ClientRpcLayer

  /** Reference semantics: dispatch each envelope in turn, whatever each reports. */
  function Run(l: Layer, c: Collaborators, envelopes: seq<Bytes>): (r: Layer)
    requires Valid(l)
    ensures Evolves(l, r)
    decreases |envelopes|
  {
    if envelopes == [] then l
    else Run(ProcessRpcQuery(l, c, envelopes[0]).layer, c, envelopes[1..])
  }

  lemma {:induction false} RunAppend(l: Layer, c: Collaborators, a: seq<Bytes>, b: seq<Bytes>)
    requires Valid(l)
    ensures Run(l, c, a + b) == Run(Run(l, c, a), c, b)
    decreases |a|
  {
    if a == [] {
      assert a + b == b;
    } else {
      assert (a + b)[1..] == a[1..] + b;
      RunAppend(ProcessRpcQuery(l, c, a[0]).layer, c, a[1..], b);
    }
  }

  lemma RunSingle(l: Layer, c: Collaborators, envelope: Bytes)
    requires Valid(l)
    ensures Run(l, c, [envelope]) == ProcessRpcQuery(l, c, envelope).layer
  {
    assert [envelope][1..] == [];
  }

  /** One message of a container, as the server lays it out. */
  datatype Item = Item(messageId: u64, seqNo: u32, body: Bytes)

  predicate Fits(items: seq<Item>) {
    forall i :: 0 <= i < |items| ==> |items[i].body| < 0x1_0000_0000
  }

  function EncodeItem(item: Item): (r: Bytes)
    requires |item.body| < 0x1_0000_0000
    ensures |r| == MessageHeaderSize + |item.body|
  {
    WriteMessageHeader([], MessageHeader(item.messageId, item.seqNo, |item.body|)) + item.body
  }

  function EncodeItems(items: seq<Item>): (r: Bytes)
    requires Fits(items)
  {
    if items == [] then [] else EncodeItem(items[0]) + EncodeItems(items[1..])
  }

  function Bodies(items: seq<Item>): (r: seq<Bytes>)
    ensures |r| == |items|
    ensures forall i :: 0 <= i < |items| ==> r[i] == items[i].body
  {
    seq(|items|, i requires 0 <= i < |items| => items[i].body)
  }

  /**
    Regrouping a concatenation. Stated apart so that it is proved where no
    encoder terms are in scope; inline, the solver spends its budget on them.
   */
  lemma ConcatRegroups(a: Bytes, b: Bytes, c: Bytes, d: Bytes)
    ensures (a + b + c) + d == a + (b + (c + d))
  {
  }

  /** The bytes of a non-empty run of items: the first header, the first body, then the rest. */
  lemma EncodeItemsSplits(items: seq<Item>, tail: Bytes)
    requires Fits(items) && items != []
    ensures EncodeItems(items) + tail
            == WriteMessageHeader([], MessageHeader(items[0].messageId, items[0].seqNo, |items[0].body|))
               + (items[0].body + (EncodeItems(items[1..]) + tail))
  {
    var w := WriteMessageHeader([], MessageHeader(items[0].messageId, items[0].seqNo, |items[0].body|));
    assert EncodeItems(items) == w + items[0].body + EncodeItems(items[1..]);
    ConcatRegroups(w, items[0].body, EncodeItems(items[1..]), tail);
  }

  /** The first item of a well-formed run reads back as its header, its body, and the rest. */
  lemma FirstItemReadsBack(items: seq<Item>, tail: Bytes)
    requires Fits(items) && items != []
    ensures
      var item := items[0];
      var rest := item.body + (EncodeItems(items[1..]) + tail);
      && ReadMessageHeader(EncodeItems(items) + tail)
         == Some((MessageHeader(item.messageId, item.seqNo, |item.body|), rest))
      && rest[..|item.body|] == item.body
      && rest[|item.body|..] == EncodeItems(items[1..]) + tail
  {
    var item := items[0];
    var rest := item.body + (EncodeItems(items[1..]) + tail);
    EncodeItemsSplits(items, tail);
    MessageHeaderRoundTrip(MessageHeader(item.messageId, item.seqNo, |item.body|), rest);
  }

  /** The dispatch loop of a container is the reference fold, and succeeds only on no payloads. */
  lemma {:induction false} DispatchAllIsRun(l: Layer, c: Collaborators, payloads: seq<Bytes>, bound: nat)
    requires Valid(l)
    requires forall i :: 0 <= i < |payloads| ==> |payloads[i]| < bound
    ensures DispatchAll(l, c, payloads, bound) == Step(Run(l, c, payloads), payloads == [])
    decreases |payloads|
  {
    if payloads != [] {
      DispatchAllIsRun(ProcessRpcQuery(l, c, payloads[0]).layer, c, payloads[1..], bound);
    }
  }

  /** An item whose header announces exactly the body that follows it reads back as that body. */
  lemma ReadItemsCons(s: Bytes, count: nat, body: Bytes, after: Bytes, bodies: seq<Bytes>)
    requires count > 0 && ReadMessageHeader(s).Some?
    requires ReadMessageHeader(s).value.0.contentLength == |body|
    requires ReadMessageHeader(s).value.1 == body + after
    requires ReadItems(after, count - 1) == (bodies, true)
    ensures ReadItems(s, count) == ([body] + bodies, true)
  {
    var rest := body + after;
    assert rest[..|body|] == body;
    assert rest[|body|..] == after;
  }

  /**
    Well-formed items read back as their bodies, all of them and in order:
    each item consumes its header and exactly its body, and what follows the
    last item is never read.
   */
  lemma {:induction false} ItemsReadBack(items: seq<Item>, tail: Bytes)
    requires Fits(items)
    ensures ReadItems(EncodeItems(items) + tail, |items|) == (Bodies(items), true)
    decreases |items|
  {
    if items != [] {
      var after := EncodeItems(items[1..]) + tail;
      FirstItemReadsBack(items, tail);
      assert Fits(items[1..]);
      ItemsReadBack(items[1..], tail);
      ReadItemsCons(EncodeItems(items) + tail, |items|, items[0].body, after, Bodies(items[1..]));
      assert Bodies(items) == [items[0].body] + Bodies(items[1..]);
    }
  }

  /**
    A container of well-formed items does to the layer what dispatching its
    item bodies one after another does, ignores what follows the last item,
    and is fully processed exactly when it is empty.
   */
  lemma ContainerDispatchesInOrder(l: Layer, c: Collaborators, items: seq<Item>, tail: Bytes)
    requires Valid(l) && Fits(items) && |items| < 0x1_0000_0000
    ensures ProcessContainer(l, c, EncodeU32(|items|) + EncodeItems(items) + tail)
            == Step(Run(l, c, Bodies(items)), items == [])
  {
    var rest := EncodeItems(items) + tail;
    assert EncodeU32(|items|) + EncodeItems(items) + tail == EncodeU32(|items|) + rest;
    ReadU32Written(|items|, rest);
    ItemsReadBack(items, tail);
    DispatchAllIsRun(l, c, Bodies(items), |rest|);
  }

  /** An envelope whose tag is msg_container. */
  predicate IsContainer(c: Collaborators, data: Bytes) {
    ReadU32(data).Some? && c.tagOf(ReadU32(data).value.0).MsgContainer?
  }

  /** The envelopes a payload reaches once every container in it is opened, left to right. */
  function Leaves(c: Collaborators, data: Bytes): (r: seq<Bytes>)
    decreases |data|, 1
  {
    if IsContainer(c, data) then ContainerLeaves(c, ReadU32(data).value.1) else [data]
  }

  function ContainerLeaves(c: Collaborators, body: Bytes): (r: seq<Bytes>)
    decreases |body|, 0
  {
    match ReadU32(body)
    case None => []
    case Some((itemsCount, items)) => LeavesAll(c, ReadItems(items, itemsCount).0, |items|)
  }

  function LeavesAll(c: Collaborators, payloads: seq<Bytes>, bound: nat): (r: seq<Bytes>)
    requires forall i :: 0 <= i < |payloads| ==> |payloads[i]| < bound
    decreases bound, |payloads|
  {
    if payloads == [] then [] else Leaves(c, payloads[0]) + LeavesAll(c, payloads[1..], bound)
  }

  /** No envelope reached by opening containers is itself a container. */
  lemma {:induction false} LeavesAreNotContainers(c: Collaborators, data: Bytes)
    ensures forall i :: 0 <= i < |Leaves(c, data)| ==> !IsContainer(c, Leaves(c, data)[i])
    decreases |data|, 1
  {
    if IsContainer(c, data) {
      ContainerLeavesAreNotContainers(c, ReadU32(data).value.1);
    }
  }

  lemma {:induction false} ContainerLeavesAreNotContainers(c: Collaborators, body: Bytes)
    ensures forall i :: 0 <= i < |ContainerLeaves(c, body)| ==> !IsContainer(c, ContainerLeaves(c, body)[i])
    decreases |body|, 0
  {
    match ReadU32(body)
    case None =>
    case Some((itemsCount, items)) =>
      AllLeavesAreNotContainers(c, ReadItems(items, itemsCount).0, |items|);
  }

  lemma {:induction false} AllLeavesAreNotContainers(c: Collaborators, payloads: seq<Bytes>, bound: nat)
    requires forall i :: 0 <= i < |payloads| ==> |payloads[i]| < bound
    ensures forall i :: 0 <= i < |LeavesAll(c, payloads, bound)| ==> !IsContainer(c, LeavesAll(c, payloads, bound)[i])
    decreases bound, |payloads|
  {
    if payloads != [] {
      LeavesAreNotContainers(c, payloads[0]);
      AllLeavesAreNotContainers(c, payloads[1..], bound);
    }
  }

  /**
    Nesting is plain recursion: dispatching a payload does to the layer what
    dispatching, in order, the non-container envelopes it reaches does.
   */
  lemma {:induction false} DispatchIsFlat(l: Layer, c: Collaborators, data: Bytes)
    requires Valid(l)
    ensures ProcessRpcQuery(l, c, data).layer == Run(l, c, Leaves(c, data))
    decreases |data|, 1
  {
    if IsContainer(c, data) {
      ContainerIsFlat(l, c, ReadU32(data).value.1);
    } else {
      RunSingle(l, c, data);
    }
  }

  lemma {:induction false} ContainerIsFlat(l: Layer, c: Collaborators, body: Bytes)
    requires Valid(l)
    ensures ProcessContainer(l, c, body).layer == Run(l, c, ContainerLeaves(c, body))
    decreases |body|, 0
  {
    match ReadU32(body)
    case None =>
    case Some((itemsCount, items)) =>
      DispatchAllIsFlat(l, c, ReadItems(items, itemsCount).0, |items|);
  }

  lemma {:induction false} DispatchAllIsFlat(l: Layer, c: Collaborators, payloads: seq<Bytes>, bound: nat)
    requires Valid(l)
    requires forall i :: 0 <= i < |payloads| ==> |payloads[i]| < bound
    ensures DispatchAll(l, c, payloads, bound).layer == Run(l, c, LeavesAll(c, payloads, bound))
    decreases bound, |payloads|
  {
    if payloads != [] {
      var first := Leaves(c, payloads[0]);
      var others := LeavesAll(c, payloads[1..], bound);
      DispatchIsFlat(l, c, payloads[0]);
      DispatchAllIsFlat(ProcessRpcQuery(l, c, payloads[0]).layer, c, payloads[1..], bound);
      RunAppend(l, c, first, others);
    }
  }

  /** A whole msg_container envelope: dispatched as its item bodies, one after another. */
  lemma ContainerEnvelopeDispatchesInOrder(l: Layer, c: Collaborators, tag: u32, items: seq<Item>)
    requires Valid(l) && c.tagOf(tag).MsgContainer?
    requires Fits(items) && |items| < 0x1_0000_0000
    ensures ProcessRpcQuery(l, c, EncodeU32(tag) + EncodeU32(|items|) + EncodeItems(items))
            == Step(Run(l, c, Bodies(items)), false)
  {
    var body := EncodeU32(|items|) + EncodeItems(items);
    assert EncodeU32(tag) + EncodeU32(|items|) + EncodeItems(items) == EncodeU32(tag) + body;
    ReadU32Written(tag, body);
    assert body == EncodeU32(|items|) + EncodeItems(items) + [];
    ContainerDispatchesInOrder(l, c, items, []);
  }

  /**
    Wrapping an envelope, a container itself or not, as the only item of a
    container has the same effect on the layer as the envelope alone.
   */
  lemma WrappingInContainerIsTransparent(l: Layer, c: Collaborators, tag: u32, id: u64, seqNo: u32, inner: Bytes)
    requires Valid(l) && c.tagOf(tag).MsgContainer?
    requires |inner| < 0x1_0000_0000
    ensures ProcessRpcQuery(l, c, EncodeU32(tag) + EncodeU32(1) + EncodeItems([Item(id, seqNo, inner)])).layer
            == ProcessRpcQuery(l, c, inner).layer
  {
    var wrapped := [Item(id, seqNo, inner)];
    assert Fits(wrapped);
    ContainerEnvelopeDispatchesInOrder(l, c, tag, wrapped);
    assert Bodies(wrapped) == [inner];
    RunSingle(l, c, inner);
  }

  /** rpc_result for a registered id finishes exactly that operation with the remaining bytes. */
  lemma RpcResultFinishesOperation(l: Layer, c: Collaborators, tag: u32, messageId: u64, reply: Bytes)
    requires Valid(l) && c.tagOf(tag).RpcResult?
    requires messageId in l.operations
    ensures
      var h := l.operations[messageId];
      var r := ProcessRpcQuery(l, c, EncodeU32(tag) + EncodeU64(messageId) + reply);
      && !r.processed
      && r.layer.heap == l.heap[h := l.heap[h].(state := Finished(reply))]
      && r.layer.(heap := l.heap) == l
  {
    assert EncodeU32(tag) + EncodeU64(messageId) + reply == EncodeU32(tag) + (EncodeU64(messageId) + reply);
    ReadU32Written(tag, EncodeU64(messageId) + reply);
    ReadU64Written(messageId, reply);
  }

  /** rpc_result for an unregistered id is reported and changes nothing at all. */
  lemma RpcResultForUnknownIdChangesNothing(l: Layer, c: Collaborators, tag: u32, messageId: u64, reply: Bytes)
    requires Valid(l) && c.tagOf(tag).RpcResult?
    requires messageId !in l.operations
    ensures ProcessRpcQuery(l, c, EncodeU32(tag) + EncodeU64(messageId) + reply) == Step(l, false)
  {
    assert EncodeU32(tag) + EncodeU64(messageId) + reply == EncodeU32(tag) + (EncodeU64(messageId) + reply);
    ReadU32Written(tag, EncodeU64(messageId) + reply);
    ReadU64Written(messageId, reply);
  }

  /** A sent operation is finished by the reply to the id the transport gave it. */
  lemma ReplyToSentRequestFinishesIt(l: Layer, c: Collaborators, h: Handle, tag: u32, reply: Bytes)
    requires Valid(l) && h in l.heap && c.tagOf(tag).RpcResult?
    requires SendRpc(l, c, h).processed
    ensures
      var sent := SendRpc(l, c, h).layer;
      var id := c.sendPackage(OutgoingPacket(l, c, h));
      var r := ProcessRpcQuery(sent, c, EncodeU32(tag) + EncodeU64(id) + reply);
      && r.layer.heap[h].state == Finished(reply)
      && r.layer.heap[h].requestId == id
      && r.layer.operations == sent.operations
  {
    var id := c.sendPackage(OutgoingPacket(l, c, h));
    RpcResultFinishesOperation(SendRpc(l, c, h).layer, c, tag, id, reply);
  }

  /** Acks, pongs, gzip-packed data, new_session_created and unknown tags leave the layer as it was. */
  lemma LogOnlyEnvelopesChangeNothing(l: Layer, c: Collaborators, tag: u32, body: Bytes)
    requires Valid(l)
    requires !c.tagOf(tag).MsgContainer? && !c.tagOf(tag).RpcResult?
    requires !c.tagOf(tag).BadMsgNotification? && !c.tagOf(tag).BadServerSalt?
    ensures ProcessRpcQuery(l, c, EncodeU32(tag) + body) == Step(l, false)
  {
    ReadU32Written(tag, body);
  }

  /** A notice of ignored message with any code but a bad salt changes nothing. */
  lemma OtherIgnoredErrorsChangeNothing(l: Layer, c: Collaborators, tag: u32, body: Bytes)
    requires Valid(l)
    requires c.tagOf(tag).BadMsgNotification? || c.tagOf(tag).BadServerSalt?
    requires !c.readNotification(body).errorCode.IncorrectServerSalt?
    ensures ProcessRpcQuery(l, c, EncodeU32(tag) + body) == Step(l, false)
  {
    ReadU32Written(tag, body);
  }

  /**
    Bad-salt recovery end to end: a header with a new salt is observed, then
    a bad-server-salt notice arrives for a registered message. The new salt
    becomes the active one and the same operation is sent again under it;
    when the transport accepts, the operation is reachable under both ids.
   */
  lemma BadServerSaltRecovery(l: Layer, c: Collaborators, header: FullMessageHeader, tag: u32, body: Bytes)
    requires Valid(l)
    requires header.serverSalt != l.serverSalt
    requires c.tagOf(tag).BadMsgNotification? || c.tagOf(tag).BadServerSalt?
    requires c.readNotification(body).errorCode.IncorrectServerSalt?
    requires c.readNotification(body).messageId in l.operations
    ensures
      var observed := ProcessDecryptedMessageHeader(l, header).layer;
      var r := ProcessRpcQuery(observed, c, EncodeU32(tag) + body).layer;
      var m := c.readNotification(body).messageId;
      var h := l.operations[m];
      var packet := OutgoingPacket(observed.(serverSalt := header.serverSalt), c, h);
      var id := c.sendPackage(packet);
      && r.serverSalt == header.serverSalt
      && packet.serverSalt == header.serverSalt
      && (id == 0 ==> r == observed.(serverSalt := header.serverSalt))
      && (id != 0 ==>
            && r.sent == l.sent + [SentPacket(id, packet)]
            && r.operations[m] == h
            && id in r.operations && r.operations[id] == h
            && r.heap[h].requestId == id)
  {
    ReadU32Written(tag, body);
  }

  /** The init-connection prefix is present exactly when the sequence counter is at zero. */
  lemma InitConnectionIffCounterZero(l: Layer, c: Collaborators, h: Handle)
    requires h in l.heap && |c.initConnection| > 0
    ensures OutgoingPacket(l, c, h).data == c.initConnection + l.heap[h].requestData <==> l.sequenceNumber == 0
    ensures l.sequenceNumber != 0 ==> OutgoingPacket(l, c, h).data == l.heap[h].requestData
  {
    var request := l.heap[h].requestData;
    if l.sequenceNumber != 0 {
      assert |c.initConnection + request| > |request|;
    }
  }

  /**
    Once one send has been accepted, no later send in the session carries the
    init-connection prefix: all it takes is that the counter has not fallen
    back, which every transition of the layer guarantees (`Apply` below, and
    `OnConnectionFailed`, which leaves the counter as it is).
   */
  lemma InitConnectionOnlyOnce(l: Layer, c: Collaborators, h: Handle, later: Layer, next: Handle)
    requires Valid(l) && h in l.heap && SendRpc(l, c, h).processed
    requires later.sequenceNumber >= SendRpc(l, c, h).layer.sequenceNumber && next in later.heap
    ensures OutgoingPacket(later, c, next).data == later.heap[next].requestData
  {
  }

  /** What the layer reacts to between two sends, apart from a lost connection. */
  datatype Event =
    | HeaderReceived(header: FullMessageHeader)
    | EnvelopeReceived(data: Bytes)
    | RequestSent(h: Handle)
    | SessionChanged(sessionId: u64)

  /**
    One event: a decrypted header, an envelope (bad-salt resends included),
    a send, or a new session id. An operation the layer holds no record of
    is not sent.
   */
  function Apply(l: Layer, c: Collaborators, e: Event): (r: Layer)
    requires Valid(l)
    ensures Valid(r)
    ensures r.sequenceNumber >= l.sequenceNumber
  {
    match e
    case HeaderReceived(header) => ProcessDecryptedMessageHeader(l, header).layer
    case EnvelopeReceived(data) => ProcessRpcQuery(l, c, data).layer
    case RequestSent(h) => if h in l.heap then SendRpc(l, c, h).layer else l
    case SessionChanged(sessionId) => SetSessionId(l, sessionId)
  }

  /** A run of events: the counter never falls back, and the layer stays valid. */
  function Trace(l: Layer, c: Collaborators, events: seq<Event>): (r: Layer)
    requires Valid(l)
    ensures Valid(r)
    ensures r.sequenceNumber >= l.sequenceNumber
    decreases |events|
  {
    if events == [] then l else Trace(Apply(l, c, events[0]), c, events[1..])
  }

  /**
    Send, then any run of headers (new salts included), envelopes, sends and
    session changes, then send again: the second send carries no prefix.
   */
  lemma NoInitConnectionAfterFirstSend(l: Layer, c: Collaborators, h: Handle, events: seq<Event>, next: Handle)
    requires Valid(l) && h in l.heap && SendRpc(l, c, h).processed
    requires next in Trace(SendRpc(l, c, h).layer, c, events).heap
    ensures
      var later := Trace(SendRpc(l, c, h).layer, c, events);
      OutgoingPacket(later, c, next).data == later.heap[next].requestData
  {
    InitConnectionOnlyOnce(l, c, h, Trace(SendRpc(l, c, h).layer, c, events), next);
  }

  /**
    The session's first request goes out behind the init-connection prefix.
    When the server ignores it for a bad salt, the request is resent under the
    new salt without the prefix, because the counter has already left zero.
   */
  lemma FirstRequestResentWithoutInitConnection(l: Layer, c: Collaborators, h: Handle, header: FullMessageHeader, tag: u32, body: Bytes)
    requires Valid(l) && h in l.heap && l.sequenceNumber == 0 && |c.initConnection| > 0
    requires SendRpc(l, c, h).processed
    requires header.serverSalt != l.serverSalt
    requires c.tagOf(tag).BadServerSalt?
    requires c.readNotification(body)
             == IgnoredMessageNotification(IncorrectServerSalt, c.sendPackage(OutgoingPacket(l, c, h)))
    ensures OutgoingPacket(l, c, h).data == c.initConnection + l.heap[h].requestData
    ensures
      var observed := ProcessDecryptedMessageHeader(SendRpc(l, c, h).layer, header).layer;
      var r := ProcessRpcQuery(observed, c, EncodeU32(tag) + body).layer;
      var resent := OutgoingPacket(observed.(serverSalt := header.serverSalt), c, h);
      && resent.serverSalt == header.serverSalt
      && resent.data == l.heap[h].requestData
      && (c.sendPackage(resent) != 0 ==> r.sent[|r.sent| - 1] == SentPacket(c.sendPackage(resent), resent))
  {
    var sent := SendRpc(l, c, h).layer;
    BadServerSaltRecovery(sent, c, header, tag, body);
  }

  /** After setSessionId, exactly the headers naming the new session are accepted. */
  lemma SetSessionIdSelectsHeaders(l: Layer, sessionId: u64, header: FullMessageHeader)
    ensures ProcessDecryptedMessageHeader(SetSessionId(l, sessionId), header).processed <==> header.sessionId == sessionId
  {
  }
}
