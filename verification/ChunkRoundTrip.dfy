/**
 Round trip of the chunked transfer coding, however a body is cut into chunks.
 */
module ChunkRoundTrip {
  import opened Text
  import opened Bytes
  import opened HeadReader
  import opened Utf8
  import opened Tokens
  import opened Search
  import opened ControlProtocol
  import opened BodyReader
  import opened RequestReader
  import opened ControlRoundTrip

  // ---------------------------------------------------------------------------
  // Sending

  /** A chunk as it is sent: its size in hexadecimal digits, its extensions and its data. */
  datatype Chunk = Chunk(size: string, extensions: string, data: seq<Byte>)
  {
    predicate Valid() {
      && size != [] && AllHex(size) && HexValue(size) == |data|
      && (extensions != [] ==> extensions[0] == ';') && '\r' !in extensions
    }

    function Text(): string { size + extensions }
  }

  function SentLine(line: string): seq<Byte> {
    Encode(line) + LINE_END
  }

  function SentChunk(c: Chunk): seq<Byte> {
    SentLine(c.Text()) + (c.data + LINE_END)
  }

  function SentChunks(chunks: seq<Chunk>): seq<Byte> {
    if chunks == [] then [] else SentChunk(chunks[0]) + SentChunks(chunks[1..])
  }

  function DataOf(chunks: seq<Chunk>): seq<Byte> {
    if chunks == [] then [] else chunks[0].data + DataOf(chunks[1..])
  }

  function SentField(field: (string, string)): seq<Byte> {
    SentLine(field.0 + ": " + field.1)
  }

  function ReceivedField(field: (string, string)): (string, string) {
    (field.0, Trim(" " + field.1, IsWhitespace))
  }

  function SentTrailers(fields: Headers): seq<Byte> {
    if fields == [] then LINE_END else SentField(fields[0]) + SentTrailers(fields[1..])
  }

  /** A body in chunks, the last chunk, and the trailers. */
  function SentBody(chunks: seq<Chunk>, last: Chunk, fields: Headers): seq<Byte> {
    SentChunks(chunks) + (SentLine(last.Text()) + SentTrailers(fields))
  }

  predicate ChunksFit(chunks: seq<Chunk>, limits: Limits) {
    forall i :: 0 <= i < |chunks| ==>
      chunks[i].Valid() && chunks[i].data != [] && |SentLine(chunks[i].Text())| <= limits.headerBytes
  }

  // ---------------------------------------------------------------------------
  // Lines

  lemma LineReads(line: string, rest: seq<Byte>, limit: nat)
    requires '\r' !in line && |SentLine(line)| <= limit
    ensures FirstLine(SentLine(line) + rest, limit) == Some(Line(line, rest))
  {
    var bytes := SentLine(line) + rest;
    EncodeAvoids(line, '\r');
    var n := |Encode(line)|;
    assert EndsLineAt(bytes, n);
    forall i | 0 <= i < n
      ensures !EndsLineAt(bytes, i)
    {
      assert bytes[i] == Encode(line)[i] && Encode(line)[i] in Encode(line);
    }
    assert LineLength(bytes) == Some(n);
    assert bytes[..n] == Encode(line) && bytes[n + 2..] == rest;
    DecodesEncoded(line);
  }

  lemma SizeIsRead(c: Chunk)
    requires c.Valid() && |c.data| <= MAX_USIZE
    ensures ChunkSize(c.Text()) == Some(|c.data|) && '\r' !in c.Text()
  {
    var line := c.Text();
    forall i | 0 <= i < |c.size|
      ensures line[i] == c.size[i] && !IsSemicolon(c.size[i]) && !IsWhitespace(c.size[i]) && c.size[i] != '+'
    {
      assert IsHexDigit(c.size[i]);
    }
    if c.extensions != [] {
      FindIs(line, IsSemicolon, |c.size|);
    }
    assert line[..|c.size|] == c.size;
    TrimKeeps(c.size);
  }

  // ---------------------------------------------------------------------------
  // Chunks

  lemma ChunkReads(c: Chunk, rest: seq<Byte>, limits: Limits, have: nat)
    requires c.Valid() && c.data != [] && |SentLine(c.Text())| <= limits.headerBytes
    requires have + |c.data| <= limits.bodyBytes && have + |c.data| <= MAX_USIZE
    ensures NextChunk(SentChunk(c) + rest, limits, have) == Some(Chunks(c.data, rest))
  {
    SizeIsRead(c);
    var after := c.data + LINE_END + rest;
    assert SentChunk(c) + rest == SentLine(c.Text()) + after;
    LineReads(c.Text(), after, limits.headerBytes);
    var n := |c.data|;
    assert after[n..n + 2] == LINE_END && after[..n] == c.data && after[n + 2..] == rest;
  }

  lemma LastChunkReads(last: Chunk, rest: seq<Byte>, limits: Limits, have: nat)
    requires last.Valid() && last.data == [] && |SentLine(last.Text())| <= limits.headerBytes
    ensures NextChunk(SentLine(last.Text()) + rest, limits, have) == Some(Chunks([], rest))
  {
    SizeIsRead(last);
    LineReads(last.Text(), rest, limits.headerBytes);
  }

  lemma {:induction false} ChunksReadBack(chunks: seq<Chunk>, last: Chunk, rest: seq<Byte>, limits: Limits,
                                          so: seq<Byte>)
    requires ChunksFit(chunks, limits) && last.Valid() && last.data == []
    requires |SentLine(last.Text())| <= limits.headerBytes
    requires |so| + |DataOf(chunks)| <= limits.bodyBytes && |so| + |DataOf(chunks)| <= MAX_USIZE
    ensures ExpectedChunks(SentChunks(chunks) + (SentLine(last.Text()) + rest), limits, so)
         == Some(Chunks(so + DataOf(chunks), rest))
    decreases |chunks|
  {
    var end := SentLine(last.Text()) + rest;
    if chunks == [] {
      LastChunkReads(last, rest, limits, |so|);
      assert [] + end == end && so + [] == so;
    } else {
      var c, more := chunks[0], chunks[1..];
      ChunkReads(c, SentChunks(more) + end, limits, |so|);
      Regroup(SentChunk(c), SentChunks(more), end);
      Regroup(so, c.data, DataOf(more));
      ChunksReadBack(more, last, rest, limits, so + c.data);
    }
  }

  // ---------------------------------------------------------------------------
  // Trailers

  predicate FieldFits(field: (string, string)) {
    IsHeaderName(field.0) && '\r' !in field.1
  }

  predicate FieldsFit(fields: Headers) {
    forall i :: 0 <= i < |fields| ==> FieldFits(fields[i])
  }

  /** What a field gives when it is read after `used` bytes. */
  function FieldStep(field: (string, string), rest: seq<Byte>, used: nat): Option<Trailer> {
    Some(Trailer(Some(ReceivedField(field)), used + |SentField(field)|, rest))
  }

  lemma FieldReads(field: (string, string), rest: seq<Byte>, limits: Limits, have: nat, used: nat)
    requires FieldFits(field) && have < limits.headers && used + |SentField(field)| <= limits.headerBytes
    ensures NextTrailer(SentField(field) + rest, limits, have, used) == FieldStep(field, rest, used)
  {
    NameIsOnALine(field.0);
    LineReads(field.0 + ": " + field.1, rest, limits.headerBytes);
    HeaderReads(field.0, field.1);
  }

  lemma EmptyLineReads(rest: seq<Byte>, limits: Limits, have: nat, used: nat)
    requires used + 2 <= limits.headerBytes
    ensures NextTrailer(LINE_END + rest, limits, have, used) == Some(Trailer(None, used + 2, rest))
  {
    assert SentLine("") == LINE_END;
    LineReads("", rest, limits.headerBytes);
  }

  lemma TrailersEnd(step: Stepping, bytes: seq<Byte>, so: Headers, used: nat, now: nat, rest: seq<Byte>)
    requires Shrinks(step) && step(bytes, |so|, used) == Some(Trailer(None, now, rest))
    ensures TrailersBy(step, bytes, so, used) == Some(Trailing(so, rest))
  {
  }

  lemma TrailerAdds(step: Stepping, bytes: seq<Byte>, so: Headers, used: nat, header: (string, string), now: nat,
                    rest: seq<Byte>)
    requires Shrinks(step) && step(bytes, |so|, used) == Some(Trailer(Some(header), now, rest))
    ensures TrailersBy(step, bytes, so, used) == TrailersBy(step, rest, so + [header], now)
  {
  }

  /** The step reads back any field that fits. */
  ghost predicate ReadsFields(step: Stepping, limits: Limits) {
    forall field, rest, have: nat, used: nat ::
      FieldFits(field) && have < limits.headers && used + |SentField(field)| <= limits.headerBytes ==>
      step(SentField(field) + rest, have, used) == FieldStep(field, rest, used)
  }

  ghost predicate ReadsEnd(step: Stepping, limits: Limits) {
    forall rest, have: nat, used: nat :: used + 2 <= limits.headerBytes ==>
      step(LINE_END + rest, have, used) == Some(Trailer(None, used + 2, rest))
  }

  lemma ReaderReadsFields(limits: Limits)
    ensures ReadsFields(SteppingOf(limits), limits)
  {
    var step := SteppingOf(limits);
    forall field, rest, have: nat, used: nat |
      FieldFits(field) && have < limits.headers && used + |SentField(field)| <= limits.headerBytes
      ensures step(SentField(field) + rest, have, used) == FieldStep(field, rest, used)
    {
      FieldReads(field, rest, limits, have, used);
    }
  }

  lemma ReaderReadsEnd(limits: Limits)
    ensures ReadsEnd(SteppingOf(limits), limits)
  {
    var step := SteppingOf(limits);
    forall rest, have: nat, used: nat | used + 2 <= limits.headerBytes
      ensures step(LINE_END + rest, have, used) == Some(Trailer(None, used + 2, rest))
    {
      EmptyLineReads(rest, limits, have, used);
    }
  }

  lemma {:induction false} TrailersReadBack(step: Stepping, fields: Headers, rest: seq<Byte>, limits: Limits,
                                            so: Headers, used: nat)
    requires Shrinks(step) && ReadsFields(step, limits) && ReadsEnd(step, limits)
    requires FieldsFit(fields) && |so| + |fields| <= limits.headers
    requires used + |SentTrailers(fields)| <= limits.headerBytes
    ensures TrailersBy(step, SentTrailers(fields) + rest, so, used) == Some(Trailing(so + Received(fields), rest))
    decreases |fields|
  {
    if |fields| == 0 {
      TrailersEnd(step, LINE_END + rest, so, used, used + 2, rest);
      assert so + [] == so;
    } else {
      var field, more := fields[0], fields[1..];
      var now, after := used + |SentField(field)|, SentTrailers(more) + rest;
      TrailerAdds(step, SentField(field) + after, so, used, ReceivedField(field), now, after);
      TrailersReadBack(step, more, rest, limits, so + [ReceivedField(field)], now);
      Regroup(so, [ReceivedField(field)], Received(more));
      Regroup(SentField(field), SentTrailers(more), rest);
    }
  }

  // ---------------------------------------------------------------------------
  // Bodies

  predicate BodyFits(chunks: seq<Chunk>, last: Chunk, fields: Headers, limits: Limits) {
    && ChunksFit(chunks, limits) && last.Valid() && last.data == [] && |SentLine(last.Text())| <= limits.headerBytes
    && |DataOf(chunks)| <= limits.bodyBytes && |DataOf(chunks)| <= MAX_USIZE
    && FieldsFit(fields) && |fields| <= limits.headers && |SentTrailers(fields)| <= limits.headerBytes
  }

  lemma AllTrailersReadBack(fields: Headers, after: seq<Byte>, limits: Limits)
    requires FieldsFit(fields) && |fields| <= limits.headers && |SentTrailers(fields)| <= limits.headerBytes
    ensures ExpectedTrailers(SentTrailers(fields) + after, limits) == Some(Trailing(Received(fields), after))
  {
    ReaderReadsFields(limits);
    ReaderReadsEnd(limits);
    TrailersReadBack(SteppingOf(limits), fields, after, limits, [], 0);
    assert [] + Received(fields) == Received(fields);
  }

  /** A chunked body is read back as the data of its chunks, with its trailers, and nothing more is taken. */
  lemma ChunkedBodyReadsBack(chunks: seq<Chunk>, last: Chunk, fields: Headers, after: seq<Byte>, limits: Limits)
    requires BodyFits(chunks, last, fields, limits)
    ensures ExpectedChunked(SentBody(chunks, last, fields) + after, limits)
         == Some(Body(DataOf(chunks), Received(fields), after))
  {
    var sent, line, trailers := SentChunks(chunks), SentLine(last.Text()), SentTrailers(fields);
    ChunksReadBack(chunks, last, trailers + after, limits, []);
    AllTrailersReadBack(fields, after, limits);
    Regroup(sent, line + trailers, after);
    Regroup(line, trailers, after);
    assert [] + DataOf(chunks) == DataOf(chunks);
  }

  /** A request with such a body, behind any head that announces it, is read back whole. */
  lemma ChunkedRequestReadsBack(lines: seq<string>, head: RequestHead, chunks: seq<Chunk>, last: Chunk,
                                fields: Headers, after: seq<Byte>, end: End, limits: Limits)
    requires lines != [] && AreLines(lines) && |Encode(Join(lines))| + 4 <= limits.headerBytes
    requires ParseHead(Join(lines), limits.headers) == Good(head) && head.framing == Chunked
    requires BodyFits(chunks, last, fields, limits)
    ensures ExpectedRead(Encode(Join(lines)) + TERMINATOR + (SentBody(chunks, last, fields) + after), end, limits)
         == (Read(head, DataOf(chunks)), after)
  {
    var rest := SentBody(chunks, last, fields) + after;
    LinesHaveNoEmptyLine(lines);
    BodyFollows(Encode(Join(lines)), rest, end, limits.headerBytes);
    ChunkedBodyReadsBack(chunks, last, fields, after, limits);
    ReadIs(Encode(Join(lines)) + TERMINATOR + rest, end, limits, Join(lines), head,
           Body(DataOf(chunks), Received(fields), after));
  }
}
