/**
 Reading one request of the control protocol from a stream.
 */
module RequestReader {
  import opened Bytes
  import opened HeadReader
  import opened Utf8
  import opened ControlProtocol
  import opened BodyReader

  datatype ReadOutcome = NoRequest | Read(head: RequestHead, body: seq<Byte>) | Rejected

  /** What a head and the bytes after it give, and what they leave. */
  function AfterHead(head: seq<Byte>, rest: seq<Byte>, limits: Limits): (ReadOutcome, seq<Byte>) {
    var text := Decode(head);
    var parsed := if text.None? then Bad else ParseHead(text.value, limits.headers);
    if parsed.Bad? then (Rejected, [])
    else
      var body := ExpectedBody(parsed.value.framing, rest, limits);
      if body.None? then (Rejected, []) else (Read(parsed.value, body.value.bytes), body.value.rest)
  }

  /** What reading must give, as a function of the stream's bytes, and what it must leave. */
  function ExpectedRead(bytes: seq<Byte>, end: End, limits: Limits): (ReadOutcome, seq<Byte>) {
    var outcome := Expected(bytes, end, limits.headerBytes);
    if outcome.Nothing? then (NoRequest, [])
    else if !outcome.Head? then (Rejected, [])
    else AfterHead(outcome.head, bytes[|outcome.head| + 4..], limits)
  }

  /** Reads one request from a stream and leaves what follows it. */
  method ReadRequest(stream: ByteStream, limits: Limits) returns (outcome: ReadOutcome)
    modifies stream
    ensures outcome == ExpectedRead(old(stream.bytes), stream.end, limits).0
    ensures outcome.Read? ==> stream.bytes == ExpectedRead(old(stream.bytes), stream.end, limits).1
  {
    ghost var all := stream.bytes;
    var head := ReadHead(stream, limits.headerBytes);
    if head.Nothing? {
      return NoRequest;
    }
    if !head.Head? {
      return Rejected;
    }
    assert stream.bytes == all[|head.head| + 4..];
    var text := Decode(head.head);
    if text.None? {
      return Rejected;
    }
    var parsed := ParseHead(text.value, limits.headers);
    if parsed.Bad? {
      return Rejected;
    }
    var body := ReadBody(stream, parsed.value.framing, limits);
    if body.None? {
      return Rejected;
    }
    outcome := Read(parsed.value, body.value);
  }
}
