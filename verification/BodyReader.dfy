/**
 Reading a request body from a stream: of a known length, or in chunks followed by
 trailers (section 7.1 of RFC 9112).
 */
module BodyReader {
  import opened Text
  import opened Bytes
  import opened HeadReader
  import opened Utf8
  import opened Tokens
  import opened Search
  import opened ControlProtocol

  datatype Limits = Limits(headerBytes: nat, headers: nat, bodyBytes: nat)

  const BUFFER := 8 * 1024

  /** Reads exactly `length` bytes, however the stream cuts them. */
  method ReadExactBody(stream: ByteStream, length: nat) returns (body: Option<seq<Byte>>)
    modifies stream
    ensures body.Some? <==> |old(stream.bytes)| >= length
    ensures body.Some? ==> body.value == old(stream.bytes)[..length] && stream.bytes == old(stream.bytes)[length..]
  {
    ghost var all := stream.bytes;
    var so: seq<Byte> := [];
    var remaining: nat := length;
    while remaining != 0
      invariant all == so + stream.bytes && |so| + remaining == length
      decreases remaining
    {
      var chunk := stream.ReadSome(if remaining < BUFFER then remaining else BUFFER);
      if chunk == [] {
        assert all == so;
        return None;
      }
      so := so + chunk;
      remaining := remaining - |chunk|;
    }
    assert all[..length] == so && all[length..] == stream.bytes;
    body := Some(so);
  }

  // ---------------------------------------------------------------------------
  // Framing lines

  const LINE_END: seq<Byte> := [CR, LF]

  predicate EndsLineAt(bytes: seq<Byte>, i: int) {
    0 <= i < |bytes| - 1 && bytes[i] == CR && bytes[i + 1] == LF
  }

  /** Length of what comes before the first line end. */
  function LineLength(bytes: seq<Byte>): (n: Option<nat>)
    ensures n.Some? ==> EndsLineAt(bytes, n.value) && forall i :: 0 <= i < n.value ==> !EndsLineAt(bytes, i)
    ensures n.None? ==> forall i :: !EndsLineAt(bytes, i)
  {
    if |bytes| < 2 then None
    else if bytes[0] == CR && bytes[1] == LF then Some(0)
    else
      var rest := LineLength(bytes[1..]);
      assert forall i :: i > 0 ==> EndsLineAt(bytes, i) == EndsLineAt(bytes[1..], i - 1);
      if rest.None? then None else Some(rest.value + 1)
  }

  datatype Line = Line(text: string, rest: seq<Byte>)

  /** The first line, if it ends within the limit and is text, and what follows it. */
  function FirstLine(bytes: seq<Byte>, limit: nat): (line: Option<Line>)
    ensures line.Some? ==> |line.value.rest| < |bytes|
  {
    var n := LineLength(bytes);
    if n.None? || n.value + 2 > limit then None
    else
      var text := Decode(bytes[..n.value]);
      if text.None? then None else Some(Line(text.value, bytes[n.value + 2..]))
  }

  /** The bytes read so far hold no line end. */
  ghost predicate InLine(all: seq<Byte>, line: seq<Byte>, rest: seq<Byte>, limit: nat) {
    all == line + rest && |line| <= limit && forall i :: !EndsLineAt(line, i)
  }

  lemma LineGoesOn(all: seq<Byte>, line: seq<Byte>, byte: Byte, rest: seq<Byte>, limit: nat)
    requires InLine(all, line, [byte] + rest, limit) && |line| < limit && !EndsLineAt(line + [byte], |line| - 1)
    ensures InLine(all, line + [byte], rest, limit)
  {
    assert forall i :: i < |line| - 1 ==> EndsLineAt(line + [byte], i) == EndsLineAt(line, i);
    assert forall i :: i > |line| - 1 ==> !EndsLineAt(line + [byte], i);
    Regroup(line, [byte], rest);
  }

  lemma LineEnds(all: seq<Byte>, line: seq<Byte>, byte: Byte, rest: seq<Byte>, limit: nat)
    requires InLine(all, line, [byte] + rest, limit) && |line| < limit && EndsLineAt(line + [byte], |line| - 1)
    ensures LineLength(all) == Some(|line| - 1) && all[..|line| - 1] == line[..|line| - 1] && all[|line| + 1..] == rest
  {
    assert EndsLineAt(all, |line| - 1);
    assert forall i :: 0 <= i < |line| - 1 ==> EndsLineAt(all, i) == EndsLineAt(line, i);
  }

  lemma LineIsTooLong(all: seq<Byte>, line: seq<Byte>, rest: seq<Byte>, limit: nat)
    requires InLine(all, line, rest, limit) && (rest == [] || |line| == limit)
    ensures FirstLine(all, limit).None?
  {
    assert forall i :: i < |line| - 1 ==> EndsLineAt(all, i) == EndsLineAt(line, i);
  }

  /** Reads one line, a byte at a time. */
  method ReadCrlfLine(stream: ByteStream, limit: nat) returns (line: Option<string>)
    modifies stream
    ensures line.Some? <==> FirstLine(old(stream.bytes), limit).Some?
    ensures line.Some? ==> FirstLine(old(stream.bytes), limit) == Some(Line(line.value, stream.bytes))
  {
    ghost var all := stream.bytes;
    var buf: seq<Byte> := [];
    while true
      invariant InLine(all, buf, stream.bytes, limit)
      decreases |stream.bytes|
    {
      ghost var rest := stream.bytes;
      var byte := stream.Read();
      if byte.None? {
        LineIsTooLong(all, buf, rest, limit);
        return None;
      }
      assert rest == [byte.value] + stream.bytes;
      if |buf| + 1 > limit {
        LineIsTooLong(all, buf, rest, limit);
        return None;
      }
      if EndsLineAt(buf + [byte.value], |buf| - 1) {
        LineEnds(all, buf, byte.value, stream.bytes, limit);
        return Decode(buf[..|buf| - 1]);
      }
      LineGoesOn(all, buf, byte.value, stream.bytes, limit);
      buf := buf + [byte.value];
    }
  }

  // ---------------------------------------------------------------------------
  // Chunks

  predicate IsSemicolon(c: char) {
    c == ';'
  }

  /** The size on a chunk's line; an extension after a semicolon is ignored. */
  function ChunkSize(line: string): Option<nat> {
    ParseHex(Trim(line[..Find(line, IsSemicolon)], IsWhitespace), MAX_USIZE)
  }

  datatype Chunks = Chunks(body: seq<Byte>, rest: seq<Byte>)

  /** One chunk after `have` bytes, empty if it is the last one, and what follows it. */
  function NextChunk(bytes: seq<Byte>, limits: Limits, have: nat): (next: Option<Chunks>)
    ensures next.Some? ==> |next.value.rest| < |bytes|
  {
    var line := FirstLine(bytes, limits.headerBytes);
    var size := if line.None? then None else ChunkSize(line.value.text);
    if size.None? then None
    else
      var n, rest := size.value, line.value.rest;
      if n == 0 then Some(Chunks([], rest))
      else if have + n > MAX_USIZE || have + n > limits.bodyBytes then None
      else if n + 2 > |rest| || rest[n..n + 2] != LINE_END then None
      else Some(Chunks(rest[..n], rest[n + 2..]))
  }

  /** The rest of a body of which `so` has been read, up to the line of the last chunk. */
  function ExpectedChunks(bytes: seq<Byte>, limits: Limits, so: seq<Byte>): Option<Chunks>
    decreases |bytes|
  {
    var next := NextChunk(bytes, limits, |so|);
    if next.None? then None
    else if next.value.body == [] then Some(Chunks(so, next.value.rest))
    else ExpectedChunks(next.value.rest, limits, so + next.value.body)
  }

  /** Reads the data of one chunk and the line end behind it. */
  method ReadChunk(stream: ByteStream, size: nat) returns (data: Option<seq<Byte>>)
    modifies stream
    ensures
      var all := old(stream.bytes);
      && (data.Some? <==> size + 2 <= |all| && all[size..size + 2] == LINE_END)
      && (data.Some? ==> data.value == all[..size] && stream.bytes == all[size + 2..])
  {
    ghost var all := stream.bytes;
    data := ReadExactBody(stream, size);
    if data.None? {
      return;
    }
    var end := ReadExactBody(stream, 2);
    assert end.Some? ==> all[size..][..2] == all[size..size + 2] && all[size..][2..] == all[size + 2..];
    if end.None? || end.value != LINE_END {
      data := None;
    }
  }

  method ReadNextChunk(stream: ByteStream, limits: Limits, have: nat) returns (data: Option<seq<Byte>>)
    modifies stream
    ensures data.Some? <==> NextChunk(old(stream.bytes), limits, have).Some?
    ensures data.Some? ==> NextChunk(old(stream.bytes), limits, have) == Some(Chunks(data.value, stream.bytes))
  {
    var line := ReadCrlfLine(stream, limits.headerBytes);
    if line.None? {
      return None;
    }
    var size := ChunkSize(line.value);
    if size.None? {
      return None;
    }
    if size.value == 0 {
      return Some([]);
    }
    if have + size.value > MAX_USIZE || have + size.value > limits.bodyBytes {
      return None;
    }
    data := ReadChunk(stream, size.value);
  }

  method ReadChunks(stream: ByteStream, limits: Limits) returns (body: Option<seq<Byte>>)
    modifies stream
    ensures body.Some? <==> ExpectedChunks(old(stream.bytes), limits, []).Some?
    ensures body.Some? ==> ExpectedChunks(old(stream.bytes), limits, []) == Some(Chunks(body.value, stream.bytes))
  {
    var so: seq<Byte> := [];
    ghost var all := stream.bytes;
    while true
      invariant ExpectedChunks(all, limits, []) == ExpectedChunks(stream.bytes, limits, so)
      decreases |stream.bytes|
    {
      var data := ReadNextChunk(stream, limits, |so|);
      if data.None? {
        return None;
      }
      if data.value == [] {
        return Some(so);
      }
      so := so + data.value;
    }
  }

  // ---------------------------------------------------------------------------
  // Trailers

  datatype Trailing = Trailing(trailers: Headers, rest: seq<Byte>)

  /** One trailer, or none at the empty line, the bytes read by then, and what follows. */
  datatype Trailer = Trailer(header: Option<(string, string)>, used: nat, rest: seq<Byte>)

  function NextTrailer(bytes: seq<Byte>, limits: Limits, have: nat, used: nat): (next: Option<Trailer>)
    ensures next.Some? ==> |next.value.rest| < |bytes|
  {
    var line := FirstLine(bytes, limits.headerBytes);
    if line.None? then None
    else
      var now := used + Utf8Length(line.value.text) + 2;
      if now > limits.headerBytes then None
      else if line.value.text == [] then Some(Trailer(None, now, line.value.rest))
      else if have >= limits.headers then None
      else
        var header := ParseHeader(line.value.text);
        if header.Bad? then None else Some(Trailer(Some(header.value), now, line.value.rest))
  }

  /** How one trailer is read after some, at a number of bytes. */
  type Stepping = (seq<Byte>, nat, nat) -> Option<Trailer>

  function SteppingOf(limits: Limits): Stepping {
    (bytes, have: nat, used: nat) => NextTrailer(bytes, limits, have, used)
  }

  ghost predicate Shrinks(step: Stepping) {
    forall bytes, have: nat, used: nat :: step(bytes, have, used).Some? ==>
      |step(bytes, have, used).value.rest| < |bytes|
  }

  /** The rest of the trailers, of which `so` have been read from `used` bytes. */
  function TrailersBy(step: Stepping, bytes: seq<Byte>, so: Headers, used: nat): Option<Trailing>
    requires Shrinks(step)
    decreases |bytes|
  {
    var next := step(bytes, |so|, used);
    if next.None? then None
    else if next.value.header.None? then Some(Trailing(so, next.value.rest))
    else TrailersBy(step, next.value.rest, so + [next.value.header.value], next.value.used)
  }

  function ExpectedTrailers(bytes: seq<Byte>, limits: Limits): Option<Trailing> {
    TrailersBy(SteppingOf(limits), bytes, [], 0)
  }

  method ReadNextTrailer(stream: ByteStream, limits: Limits, have: nat, used: nat)
    returns (ok: bool, header: Option<(string, string)>, now: nat)
    modifies stream
    ensures ok <==> NextTrailer(old(stream.bytes), limits, have, used).Some?
    ensures ok ==> NextTrailer(old(stream.bytes), limits, have, used) == Some(Trailer(header, now, stream.bytes))
  {
    var line := ReadCrlfLine(stream, limits.headerBytes);
    if line.None? {
      return false, None, used;
    }
    now := used + Utf8Length(line.value) + 2;
    if now > limits.headerBytes {
      return false, None, now;
    }
    if line.value == [] {
      return true, None, now;
    }
    if have >= limits.headers {
      return false, None, now;
    }
    var parsed := ParseHeader(line.value);
    if parsed.Bad? {
      return false, None, now;
    }
    return true, Some(parsed.value), now;
  }

  method ReadTrailers(stream: ByteStream, limits: Limits) returns (trailers: Option<Headers>)
    modifies stream
    ensures trailers.Some? <==> ExpectedTrailers(old(stream.bytes), limits).Some?
    ensures trailers.Some? ==>
      ExpectedTrailers(old(stream.bytes), limits) == Some(Trailing(trailers.value, stream.bytes))
  {
    var so: Headers, used: nat := [], 0;
    ghost var all := stream.bytes;
    while true
      invariant ExpectedTrailers(all, limits) == TrailersBy(SteppingOf(limits), stream.bytes, so, used)
      decreases |stream.bytes|
    {
      var ok, header, now := ReadNextTrailer(stream, limits, |so|, used);
      if !ok {
        return None;
      }
      if header.None? {
        return Some(so);
      }
      so, used := so + [header.value], now;
    }
  }

  // ---------------------------------------------------------------------------
  // Bodies

  datatype Body = Body(bytes: seq<Byte>, trailers: Headers, rest: seq<Byte>)

  function ExpectedChunked(bytes: seq<Byte>, limits: Limits): Option<Body> {
    var chunks := ExpectedChunks(bytes, limits, []);
    if chunks.None? then None
    else
      var trailing := ExpectedTrailers(chunks.value.rest, limits);
      if trailing.None? then None
      else Some(Body(chunks.value.body, trailing.value.trailers, trailing.value.rest))
  }

  /** The body that follows a head, and what is left after it. */
  function ExpectedBody(framing: Framing, bytes: seq<Byte>, limits: Limits): Option<Body> {
    match framing
    case NoBody => Some(Body([], [], bytes))
    case Chunked => ExpectedChunked(bytes, limits)
    case Sized(n) => if n > limits.bodyBytes || n > |bytes| then None else Some(Body(bytes[..n], [], bytes[n..]))
  }

  method ReadChunked(stream: ByteStream, limits: Limits) returns (body: Option<seq<Byte>>, trailers: Headers)
    modifies stream
    ensures body.Some? <==> ExpectedChunked(old(stream.bytes), limits).Some?
    ensures body.Some? ==> ExpectedChunked(old(stream.bytes), limits) == Some(Body(body.value, trailers, stream.bytes))
  {
    trailers := [];
    body := ReadChunks(stream, limits);
    if body.None? {
      return;
    }
    var read := ReadTrailers(stream, limits);
    if read.None? {
      return None, [];
    }
    trailers := read.value;
  }

  method ReadBody(stream: ByteStream, framing: Framing, limits: Limits) returns (body: Option<seq<Byte>>)
    modifies stream
    ensures body.Some? <==> ExpectedBody(framing, old(stream.bytes), limits).Some?
    ensures body.Some? ==>
      var expected := ExpectedBody(framing, old(stream.bytes), limits).value;
      body.value == expected.bytes && stream.bytes == expected.rest
  {
    match framing
    case NoBody => body := Some([]);
    case Chunked => var trailers; body, trailers := ReadChunked(stream, limits);
    case Sized(n) =>
      if n > limits.bodyBytes {
        return None;
      }
      body := ReadExactBody(stream, n);
  }
}
