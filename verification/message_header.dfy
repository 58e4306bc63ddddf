/**
  The fixed-layout MTProto message headers. A `MessageHeader` (16 bytes)
  prefixes each message inside a container; a `FullMessageHeader` (32 bytes)
  prefixes a decrypted top-level packet. Fields are written and read in
  declaration order with no padding and no variable-length parts.
 */
module MTProto {
  import opened Wrappers
  import opened RawStream

  const MessageHeaderSize: nat := 16
  const FullMessageHeaderSize: nat := 32

  datatype MessageHeader = MessageHeader(messageId: u64, sequenceNumber: u32, contentLength: u32)

  datatype FullMessageHeader = FullMessageHeader(
    serverSalt: u64,
    sessionId: u64,
    messageId: u64,
    sequenceNumber: u32,
    contentLength: u32)

  /** `stream << header`: the stream keeps its content and grows by the three fields. */
  function WriteMessageHeader(stream: Bytes, h: MessageHeader): (r: Bytes)
    ensures |r| == |stream| + MessageHeaderSize
    ensures r[..|stream|] == stream
    ensures DecodeLE(r[|stream|..|stream| + 8]) == h.messageId
    ensures DecodeLE(r[|stream| + 8..|stream| + 12]) == h.sequenceNumber
    ensures DecodeLE(r[|stream| + 12..|stream| + 16]) == h.contentLength
  {
    var r := stream + EncodeU64(h.messageId) + EncodeU32(h.sequenceNumber) + EncodeU32(h.contentLength);
    assert r[|stream|..|stream| + 8] == EncodeU64(h.messageId);
    assert r[|stream| + 8..|stream| + 12] == EncodeU32(h.sequenceNumber);
    assert r[|stream| + 12..|stream| + 16] == EncodeU32(h.contentLength);
    r
  }

  /** `stream >> header`: a header whose encoding is exactly the first 16 bytes, and the unread rest. */
  function ReadMessageHeader(stream: Bytes): (r: Option<(MessageHeader, Bytes)>)
    ensures r.Some? <==> |stream| >= MessageHeaderSize
    ensures r.Some? ==> WriteMessageHeader([], r.value.0) == stream[..MessageHeaderSize]
    ensures r.Some? ==> r.value.1 == stream[MessageHeaderSize..]
  {
    match ReadU64(stream)
    case None => None
    case Some((messageId, s1)) =>
      match ReadU32(s1)
      case None => None
      case Some((sequenceNumber, s2)) =>
        match ReadU32(s2)
        case None => None
        case Some((contentLength, s3)) =>
          var h := MessageHeader(messageId, sequenceNumber, contentLength);
          assert stream[..16] == EncodeU64(messageId) + EncodeU32(sequenceNumber) + EncodeU32(contentLength);
          Some((h, s3))
  }

  /** `stream << header` for the full header: salt, session, id, sequence number, length. */
  function WriteFullMessageHeader(stream: Bytes, h: FullMessageHeader): (r: Bytes)
    ensures |r| == |stream| + FullMessageHeaderSize
    ensures r[..|stream|] == stream
    ensures DecodeLE(r[|stream|..|stream| + 8]) == h.serverSalt
    ensures DecodeLE(r[|stream| + 8..|stream| + 16]) == h.sessionId
    ensures DecodeLE(r[|stream| + 16..|stream| + 24]) == h.messageId
    ensures DecodeLE(r[|stream| + 24..|stream| + 28]) == h.sequenceNumber
    ensures DecodeLE(r[|stream| + 28..|stream| + 32]) == h.contentLength
  {
    var r := stream + EncodeU64(h.serverSalt) + EncodeU64(h.sessionId) + EncodeU64(h.messageId)
             + EncodeU32(h.sequenceNumber) + EncodeU32(h.contentLength);
    assert r[|stream|..|stream| + 8] == EncodeU64(h.serverSalt);
    assert r[|stream| + 8..|stream| + 16] == EncodeU64(h.sessionId);
    assert r[|stream| + 16..|stream| + 24] == EncodeU64(h.messageId);
    assert r[|stream| + 24..|stream| + 28] == EncodeU32(h.sequenceNumber);
    assert r[|stream| + 28..|stream| + 32] == EncodeU32(h.contentLength);
    r
  }

  /** `stream >> header` for the full header. */
  function ReadFullMessageHeader(stream: Bytes): (r: Option<(FullMessageHeader, Bytes)>)
    ensures r.Some? <==> |stream| >= FullMessageHeaderSize
    ensures r.Some? ==> WriteFullMessageHeader([], r.value.0) == stream[..FullMessageHeaderSize]
    ensures r.Some? ==> r.value.1 == stream[FullMessageHeaderSize..]
  {
    match ReadU64(stream)
    case None => None
    case Some((serverSalt, s1)) =>
      match ReadU64(s1)
      case None => None
      case Some((sessionId, s2)) =>
        match ReadU64(s2)
        case None => None
        case Some((messageId, s3)) =>
          match ReadU32(s3)
          case None => None
          case Some((sequenceNumber, s4)) =>
            match ReadU32(s4)
            case None => None
            case Some((contentLength, s5)) =>
              var h := FullMessageHeader(serverSalt, sessionId, messageId, sequenceNumber, contentLength);
              assert stream[..32] == EncodeU64(serverSalt) + EncodeU64(sessionId) + EncodeU64(messageId)
                                     + EncodeU32(sequenceNumber) + EncodeU32(contentLength);
              Some((h, s5))
  }

  /** Encoding is injective: two headers with the same bytes are the same header. */
  lemma MessageHeaderEncodingInjective(a: MessageHeader, b: MessageHeader)
    requires WriteMessageHeader([], a) == WriteMessageHeader([], b)
    ensures a == b
  {
  }

  lemma FullMessageHeaderEncodingInjective(a: FullMessageHeader, b: FullMessageHeader)
    requires WriteFullMessageHeader([], a) == WriteFullMessageHeader([], b)
    ensures a == b
  {
  }

  /** Round trip: reading back a written header gives it back and consumes exactly its 16 bytes. */
  lemma MessageHeaderRoundTrip(h: MessageHeader, rest: Bytes)
    ensures ReadMessageHeader(WriteMessageHeader([], h) + rest) == Some((h, rest))
  {
    var s := WriteMessageHeader([], h) + rest;
    assert s[..MessageHeaderSize] == WriteMessageHeader([], h);
    assert s[MessageHeaderSize..] == rest;
    MessageHeaderEncodingInjective(ReadMessageHeader(s).value.0, h);
  }

  /** Round trip the other way: any 16 bytes are the encoding of the header read from them. */
  lemma MessageHeaderBytesRoundTrip(s: Bytes)
    requires |s| >= MessageHeaderSize
    ensures WriteMessageHeader([], ReadMessageHeader(s).value.0) + ReadMessageHeader(s).value.1 == s
  {
    assert s == s[..MessageHeaderSize] + s[MessageHeaderSize..];
  }

  /** Round trip over the full range of every field, consuming exactly 32 bytes. */
  lemma FullMessageHeaderRoundTrip(h: FullMessageHeader, rest: Bytes)
    ensures ReadFullMessageHeader(WriteFullMessageHeader([], h) + rest) == Some((h, rest))
  {
    var s := WriteFullMessageHeader([], h) + rest;
    assert s[..FullMessageHeaderSize] == WriteFullMessageHeader([], h);
    assert s[FullMessageHeaderSize..] == rest;
    FullMessageHeaderEncodingInjective(ReadFullMessageHeader(s).value.0, h);
  }

  lemma FullMessageHeaderBytesRoundTrip(s: Bytes)
    requires |s| >= FullMessageHeaderSize
    ensures WriteFullMessageHeader([], ReadFullMessageHeader(s).value.0) + ReadFullMessageHeader(s).value.1 == s
  {
    assert s == s[..FullMessageHeaderSize] + s[FullMessageHeaderSize..];
  }

  /** Writing onto a non-empty stream appends the same bytes as writing onto an empty one. */
  lemma WriteMessageHeaderAppends(stream: Bytes, h: MessageHeader)
    ensures WriteMessageHeader(stream, h) == stream + WriteMessageHeader([], h)
  {
    var fields := EncodeU64(h.messageId) + EncodeU32(h.sequenceNumber) + EncodeU32(h.contentLength);
    assert WriteMessageHeader([], h) == fields;
    assert WriteMessageHeader(stream, h) == stream + fields;
  }
}
