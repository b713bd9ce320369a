/**
 Round trip of the control protocol: the server reads back exactly what the client
 prints, takes no byte more from the stream, and admits the token that was sent.
 */
module ControlRoundTrip {
  import opened Text
  import opened Bytes
  import opened HeadReader
  import opened Utf8
  import opened Tokens
  import opened ControlProtocol
  import opened BodyReader
  import opened RequestReader
  import opened Search

  // ---------------------------------------------------------------------------
  // Lines and words

  /** The lines with line ends between them. */
  function Join(lines: seq<string>): string
    requires lines != []
  {
    if |lines| == 1 then lines[0] else lines[0] + "\r\n" + Join(lines[1..])
  }

  predicate IsLine(line: string) {
    line != [] && '\r' !in line && '\n' !in line
  }

  predicate AreLines(lines: seq<string>) {
    forall i :: 0 <= i < |lines| ==> IsLine(lines[i])
  }

  lemma FirstLineEnd(line: string, rest: string)
    requires '\r' !in line
    ensures FindText(line + "\r\n" + rest, "\r\n") == Some(|line|)
    ensures FindText(line, "\r\n").None?
  {
    var text := line + "\r\n" + rest;
    assert text[|line|..|line| + 2] == "\r\n";
    assert OccursAt("\r\n", text, |line|);
    forall k: nat | k < |line|
      ensures !OccursAt("\r\n", text, k)
    {
      if k + 2 <= |text| {
        assert text[k..k + 2][0] == line[k];
      }
    }
    forall k: nat
      ensures !OccursAt("\r\n", line, k)
    {
      if k + 2 <= |line| {
        assert line[k..k + 2][0] == line[k];
      }
    }
  }

  lemma {:induction false} SplitJoin(lines: seq<string>)
    requires lines != [] && AreLines(lines)
    ensures SplitLines(Join(lines)) == lines
    decreases |lines|
  {
    if |lines| == 1 {
      FirstLineEnd(lines[0], "");
    } else {
      var rest := Join(lines[1..]);
      FirstLineEnd(lines[0], rest);
      var text := lines[0] + "\r\n" + rest;
      assert text[..|lines[0]|] == lines[0];
      assert text[|lines[0]| + 2..] == rest;
      SplitJoin(lines[1..]);
    }
  }

  /** Text without any white space, which trimming does not touch either. */
  predicate IsSolid(s: string) {
    s != [] && forall i :: 0 <= i < |s| ==> !IsWhitespace(s[i])
  }

  lemma TrimKeeps(s: string)
    requires s != [] && !IsWhitespace(s[0]) && !IsWhitespace(s[|s| - 1])
    ensures Trim(" " + s, IsWhitespace) == s && Trim(s, IsWhitespace) == s
  {
    assert (" " + s)[1..] == s;
    assert TrimStart(s, IsWhitespace) == s;
    assert TrimEnd(s, IsWhitespace) == s;
  }

  predicate IsHeaderName(name: string) {
    name != [] && forall i :: 0 <= i < |name| ==> IsHeaderNameChar(name[i])
  }

  lemma HeaderReads(name: string, value: string)
    requires IsHeaderName(name)
    ensures ParseHeader(name + ": " + value) == Good((name, Trim(" " + value, IsWhitespace)))
  {
    var line := name + ": " + value;
    assert forall i :: 0 <= i < |name| ==> line[i] == name[i] && !IsColon(name[i]);
    FindIs(line, IsColon, |name|);
    assert line[..|name|] == name;
    assert line[|name| + 1..] == " " + value;
  }

  lemma SizeReads(n: nat)
    requires n <= MAX_USIZE
    ensures ParseUpTo(Decimal(n), MAX_USIZE) == Some(n)
    ensures Trim(" " + Decimal(n), IsWhitespace) == Decimal(n)
  {
    DecimalParses(n, MAX_USIZE);
    NumberReads(n);
    TrimKeeps(Decimal(n));
  }

  // ---------------------------------------------------------------------------
  // The head on the wire

  /** Bytes in which no line is empty: after a line feed some byte other than a carriage return follows. */
  predicate HasNoEmptyLine(bytes: seq<Byte>) {
    && bytes != [] && bytes[0] != CR
    && forall i :: 0 <= i < |bytes| && bytes[i] == LF ==> i + 1 < |bytes| && bytes[i + 1] != CR
  }

  lemma LineThenLines(line: seq<Byte>, rest: seq<Byte>)
    requires line != [] && CR !in line && LF !in line && HasNoEmptyLine(rest)
    ensures HasNoEmptyLine(line + [CR, LF] + rest)
  {
    var bytes := line + [CR, LF] + rest;
    assert forall i :: 0 <= i < |line| ==> bytes[i] == line[i] && line[i] in line;
    forall i | |line| < i < |bytes| && bytes[i] == LF
      ensures i + 1 < |bytes| && bytes[i + 1] != CR
    {
      if i > |line| + 1 {
        var k := i - |line| - 2;
        assert rest[k] == LF;
        assert rest[k + 1] == bytes[i + 1];
      } else {
        assert i == |line| + 1;
        assert bytes[i + 1] == rest[0];
      }
    }
  }

  lemma {:induction false} LinesHaveNoEmptyLine(lines: seq<string>)
    requires lines != [] && AreLines(lines)
    ensures HasNoEmptyLine(Encode(Join(lines)))
    decreases |lines|
  {
    var line := lines[0];
    EncodeAvoids(line, '\r');
    EncodeAvoids(line, '\n');
    EncodeNonEmpty(line);
    if |lines| == 1 {
      NoLineFeed(Encode(line));
    } else {
      LinesHaveNoEmptyLine(lines[1..]);
      EncodeAppend(line + "\r\n", Join(lines[1..]));
      EncodeAppend(line, "\r\n");
      EncodeLineEnd();
      LineThenLines(Encode(line), Encode(Join(lines[1..])));
    }
  }

  lemma NoLineFeed(bytes: seq<Byte>)
    requires bytes != [] && CR !in bytes && LF !in bytes
    ensures HasNoEmptyLine(bytes)
  {
    assert bytes[0] in bytes;
    forall i | 0 <= i < |bytes|
      ensures bytes[i] != LF
    {
      assert bytes[i] in bytes;
    }
  }

  lemma EncodeLineEnd()
    ensures Encode("\r\n") == [CR, LF]
    ensures Encode("\r\n\r\n") == TERMINATOR
  {
    assert "\r\n"[1..] == "\n" && "\n"[1..] == [];
    EncodeAppend("\r\n", "\r\n");
    assert "\r\n" + "\r\n" == "\r\n\r\n";
  }

  lemma TerminatorAt(text: seq<Byte>, p: nat)
    requires p <= |text|
    ensures Terminated(text[..p]) ==> 4 <= p && text[p - 3] == LF && text[p - 2] == CR
  {
    if p >= 4 {
      assert text[..p][p - 4..][1] == text[p - 3];
      assert text[..p][p - 4..][2] == text[p - 2];
    }
  }

  /** Non-empty lines hold no terminator, so the head ends where the empty line comes. */
  lemma HeadIsRead(head: seq<Byte>, rest: seq<Byte>, end: End, limit: nat)
    requires HasNoEmptyLine(head) && |head| + 4 <= limit
    ensures Expected(head + TERMINATOR + rest, end, limit) == Head(head)
  {
    var bytes := head + TERMINATOR + rest;
    var before := bytes[..|head| + 3];
    forall p | 0 <= p <= |before|
      ensures !Terminated(before[..p])
    {
      TerminatorAt(before, p);
      if 4 <= p && p - 3 < |head| {
        assert before[p - 3] == head[p - 3];
        if head[p - 3] == LF {
          assert before[p - 2] == head[p - 2];
        }
      }
    }
    HeadIsWhatPrecedesFirstTerminator(bytes, end, limit, head);
  }

  // ---------------------------------------------------------------------------
  // Reading the head

  lemma {:induction false} EndIsJoin(lines: seq<string>)
    requires lines != []
    ensures CrlfLines(lines) == Join(lines) + "\r\n"
    decreases |lines|
  {
    if |lines| == 1 {
      assert lines[1..] == [];
      assert CrlfLines(lines) == lines[0] + "\r\n" + "";
    } else {
      EndIsJoin(lines[1..]);
      var rest := Join(lines[1..]);
      assert lines[0] + "\r\n" + (rest + "\r\n") == lines[0] + "\r\n" + rest + "\r\n";
    }
  }

  /** The fields as the server sees them. */
  function Received(fields: Headers): Headers {
    if fields == [] then []
    else [(fields[0].0, Trim(" " + fields[0].1, IsWhitespace))] + Received(fields[1..])
  }

  predicate HaveNames(fields: Headers) {
    forall i :: 0 <= i < |fields| ==> IsHeaderName(fields[i].0)
  }

  lemma HeaderAdds(line: string, header: (string, string), rest: seq<string>, so: Headers, limit: nat)
    requires line != [] && ParseHeader(line) == Good(header) && |so| < limit
    ensures ParseHeaders([line] + rest, so, limit) == ParseHeaders(rest, so + [header], limit)
  {
    assert ([line] + rest)[1..] == rest;
  }

  lemma {:induction false} FieldsRead(fields: Headers, so: Headers, limit: nat)
    requires HaveNames(fields) && |so| + |fields| <= limit
    ensures ParseHeaders(FieldLines(fields), so, limit) == Good(so + Received(fields))
    decreases |fields|
  {
    if fields == [] {
      assert so + [] == so;
    } else {
      var field := fields[0];
      HeaderReads(field.0, field.1);
      var header := (field.0, Trim(" " + field.1, IsWhitespace));
      HeaderAdds(field.0 + ": " + field.1, header, FieldLines(fields[1..]), so, limit);
      FieldsRead(fields[1..], so + [header], limit);
      Regroup(so, [header], Received(fields[1..]));
    }
  }

  lemma {:induction false} FieldsAreLines(fields: Headers)
    requires HaveNames(fields)
    requires forall i :: 0 <= i < |fields| ==> '\r' !in fields[i].1 && '\n' !in fields[i].1
    ensures AreLines(FieldLines(fields))
    decreases |fields|
  {
    if fields != [] {
      FieldsAreLines(fields[1..]);
      NameIsOnALine(fields[0].0);
    }
  }

  lemma NameIsOnALine(name: string)
    requires IsHeaderName(name)
    ensures '\r' !in name && '\n' !in name
  {
    assert !IsHeaderNameChar('\r') && !IsHeaderNameChar('\n');
  }

  predicate Lack(headers: Headers, name: string) {
    forall i :: 0 <= i < |headers| ==> !EqIgnoreCase(headers[i].0, name)
  }

  lemma {:induction false} LengthIsElsewhere(a: Headers, b: Headers, length: Option<nat>)
    requires Lack(a, "content-length")
    ensures ContentLength(a + b, length) == ContentLength(b, length)
    decreases |a|
  {
    if a == [] {
      assert a + b == b;
    } else {
      assert (a + b)[1..] == a[1..] + b;
      LengthIsElsewhere(a[1..], b, length);
    }
  }

  lemma {:induction false} NoCodings(headers: Headers)
    requires Lack(headers, "transfer-encoding")
    ensures Codings(headers) == []
    decreases |headers|
  {
    if headers != [] {
      NoCodings(headers[1..]);
    }
  }

  // ---------------------------------------------------------------------------
  // The fields of a request

  lemma {:induction false} ReceivedParts(a: Headers, b: Headers)
    ensures Received(a + b) == Received(a) + Received(b)
    decreases |a|
  {
    if a == [] {
      assert a + b == b;
    } else {
      assert (a + b)[1..] == a[1..] + b;
      ReceivedParts(a[1..], b);
    }
  }

  lemma {:induction false} ReceivedNames(fields: Headers)
    ensures |Received(fields)| == |fields|
    ensures forall i :: 0 <= i < |fields| ==> Received(fields)[i].0 == fields[i].0
    decreases |fields|
  {
    if fields != [] {
      ReceivedNames(fields[1..]);
    }
  }

  lemma NamesAreHeaderNames()
    ensures IsHeaderName("Host") && IsHeaderName("Authorization")
    ensures IsHeaderName("Connection") && IsHeaderName("Content-Length")
  {
    assert "!#$%&'*+-.^_`|~"[8] == '-';
  }

  lemma OtherLengthOtherName(headers: Headers, name: string)
    requires forall i :: 0 <= i < |headers| ==> |headers[i].0| != |name|
    ensures Lack(headers, name)
  {
    forall i | 0 <= i < |headers|
      ensures !EqIgnoreCase(headers[i].0, name)
    {
      assert |Lower(headers[i].0)| != |Lower(name)|;
    }
  }

  /** The fields before the length. */
  function EarlyFields(api: string, token: Option<string>): Headers {
    [("Host", api)] + TokenFields(token) + [("Connection", "close")]
  }

  lemma LengthIsLast(api: string, token: Option<string>, length: nat)
    ensures RequestFields(api, token, length) == EarlyFields(api, token) + [("Content-Length", Decimal(length))]
  {
  }

  lemma SentFraming(api: string, token: Option<string>, length: nat)
    requires length <= MAX_USIZE
    ensures ContentLength(Received(RequestFields(api, token, length)), None) == Good(Some(length))
    ensures TransferChunked(Received(RequestFields(api, token, length))) == Good(false)
  {
    var early, last := EarlyFields(api, token), [("Content-Length", Decimal(length))];
    LengthIsLast(api, token, length);
    ReceivedParts(early, last);
    ReceivedNames(early);
    ReceivedNames(early + last);
    OtherLengthOtherName(Received(early), "content-length");
    OtherLengthOtherName(Received(early + last), "transfer-encoding");
    NoCodings(Received(early + last));
    LengthIsElsewhere(Received(early), Received(last), None);
    ReadLength(length);
  }

  lemma ReadLength(length: nat)
    requires length <= MAX_USIZE
    ensures ContentLength(Received([("Content-Length", Decimal(length))]), None) == Good(Some(length))
  {
    var sent := [("Content-Length", Decimal(length))];
    SizeReads(length);
    assert sent[1..] == [];
    assert Received(sent) == sent;
    assert Lower("Content-Length") == Lower("content-length");
  }

  predicate IsSendable(verb: string, api: string, path: string, token: Option<string>) {
    && IsWord(verb, IsAsciiWhitespace) && IsWord(path, IsAsciiWhitespace) && '\r' !in api && '\n' !in api
    && (token.Some? ==> IsSolid(token.value))
  }

  lemma FieldsAreSendable(verb: string, api: string, path: string, token: Option<string>, length: nat)
    requires IsSendable(verb, api, path, token)
    ensures HaveNames(RequestFields(api, token, length))
    ensures AreLines(FieldLines(RequestFields(api, token, length)))
  {
    var fields := RequestFields(api, token, length);
    NamesAreHeaderNames();
    NumberReads(length);
    var digits := Decimal(length);
    assert '\r' !in digits && '\n' !in digits;
    if token.Some? {
      TokenIsOnALine(token.value);
    }
    FieldsAreLines(fields);
  }

  lemma TokenIsOnALine(token: string)
    requires IsSolid(token)
    ensures '\r' !in "Bearer " + token && '\n' !in "Bearer " + token
  {
    assert IsWhitespace('\r') && IsWhitespace('\n');
  }

  // ---------------------------------------------------------------------------
  // The round trip

  function HeadLines(verb: string, api: string, path: string, token: Option<string>, length: nat): seq<string> {
    [RequestLine(verb, path)] + FieldLines(RequestFields(api, token, length))
  }

  function SentHead(verb: string, api: string, path: string, token: Option<string>, length: nat): RequestHead {
    RequestHead(verb, path, Received(RequestFields(api, token, length)), Sized(length))
  }

  lemma RequestLineReads(verb: string, path: string)
    requires IsWord(verb, IsAsciiWhitespace) && IsWord(path, IsAsciiWhitespace)
    ensures Words(RequestLine(verb, path), IsAsciiWhitespace) == [verb, path, "HTTP/1.1"]
    ensures IsLine(RequestLine(verb, path))
  {
    ThreeWords(verb, path, "HTTP/1.1", IsAsciiWhitespace);
    assert IsAsciiWhitespace('\r') && IsAsciiWhitespace('\n');
  }

  lemma HeadIsLines(verb: string, api: string, path: string, token: Option<string>, length: nat)
    requires IsSendable(verb, api, path, token)
    ensures AreLines(HeadLines(verb, api, path, token, length))
  {
    RequestLineReads(verb, path);
    FieldsAreSendable(verb, api, path, token, length);
  }

  lemma HeadIs(text: string, lines: seq<string>, verb: string, path: string, headers: Headers, length: nat, limit: nat)
    requires lines != [] && SplitLines(text) == lines && Words(lines[0], IsAsciiWhitespace) == [verb, path, "HTTP/1.1"]
    requires ParseHeaders(lines[1..], [], limit) == Good(headers)
    requires ContentLength(headers, None) == Good(Some(length)) && TransferChunked(headers) == Good(false)
    ensures ParseHead(text, limit) == Good(RequestHead(verb, path, headers, Sized(length)))
  {
  }

  lemma HeadParses(verb: string, api: string, path: string, token: Option<string>, length: nat, limit: nat)
    requires IsSendable(verb, api, path, token) && length <= MAX_USIZE
    requires |RequestFields(api, token, length)| <= limit
    ensures ParseHead(Join(HeadLines(verb, api, path, token, length)), limit)
         == Good(SentHead(verb, api, path, token, length))
  {
    var lines, fields := HeadLines(verb, api, path, token, length), RequestFields(api, token, length);
    HeadIsLines(verb, api, path, token, length);
    SplitJoin(lines);
    RequestLineReads(verb, path);
    assert lines[1..] == FieldLines(fields);
    FieldsAreSendable(verb, api, path, token, length);
    FieldsRead(fields, [], limit);
    assert [] + Received(fields) == Received(fields);
    SentFraming(api, token, length);
    HeadIs(Join(lines), lines, verb, path, Received(fields), length, limit);
  }

  /** The bytes sent are the head, the empty line and the body. */
  lemma SentBytes(lines: seq<string>, body: string)
    requires lines != []
    ensures Encode(CrlfLines(lines) + "\r\n" + body) == Encode(Join(lines)) + TERMINATOR + Encode(body)
  {
    EndIsJoin(lines);
    var head := Join(lines);
    assert head + "\r\n" + "\r\n" == head + "\r\n\r\n";
    EncodeAppend(head + "\r\n\r\n", body);
    EncodeAppend(head, "\r\n\r\n");
    EncodeLineEnd();
  }

  predicate FitsLimits(verb: string, api: string, path: string, body: string, token: Option<string>, limits: Limits) {
    var length := Utf8Length(body);
    && Utf8Length(Join(HeadLines(verb, api, path, token, length))) + 4 <= limits.headerBytes
    && |RequestFields(api, token, length)| <= limits.headers
    && length <= limits.bodyBytes && length <= MAX_USIZE
  }

  /**
   Reading the bytes of a printed request, whatever follows them on the stream, gives
   back the request and takes exactly those bytes.
   */
  lemma RoundTrip(verb: string, api: string, path: string, body: string, token: Option<string>, after: seq<Byte>,
                  end: End, limits: Limits)
    requires IsSendable(verb, api, path, token)
    requires FitsLimits(verb, api, path, body, token, limits)
    ensures
      var sent := Encode(RequestText(verb, api, path, body, token));
      ExpectedRead(sent + after, end, limits)
        == (Read(SentHead(verb, api, path, token, Utf8Length(body)), Encode(body)), after)
  {
    var lines := HeadLines(verb, api, path, token, Utf8Length(body));
    SentBytes(lines, body);
    HeadIsLines(verb, api, path, token, Utf8Length(body));
    LinesHaveNoEmptyLine(lines);
    var head, content := Encode(Join(lines)), Encode(body);
    HeadParses(verb, api, path, token, Utf8Length(body), limits.headers);
    BodyFollows(head, content + after, end, limits.headerBytes);
    SizedReads(content, after, limits);
    Regroup(head + TERMINATOR, content, after);
    ReadIs(head + TERMINATOR + (content + after), end, limits, Join(lines),
           SentHead(verb, api, path, token, Utf8Length(body)), Body(content, [], after));
  }

  lemma SizedReads(body: seq<Byte>, after: seq<Byte>, limits: Limits)
    requires |body| <= limits.bodyBytes
    ensures ExpectedBody(Sized(|body|), body + after, limits) == Some(Body(body, [], after))
  {
    assert (body + after)[..|body|] == body && (body + after)[|body|..] == after;
  }

  lemma ReadIs(bytes: seq<Byte>, end: End, limits: Limits, text: string, head: RequestHead, body: Body)
    requires Expected(bytes, end, limits.headerBytes) == Head(Encode(text))
    requires ParseHead(text, limits.headers) == Good(head) && |Encode(text)| + 4 <= |bytes|
    requires ExpectedBody(head.framing, bytes[|Encode(text)| + 4..], limits) == Some(body)
    ensures ExpectedRead(bytes, end, limits) == (Read(head, body.bytes), body.rest)
  {
    AfterHeadIs(Encode(text), text, bytes[|Encode(text)| + 4..], limits, head, body);
  }

  lemma AfterHeadIs(bytes: seq<Byte>, text: string, rest: seq<Byte>, limits: Limits, head: RequestHead, body: Body)
    requires bytes == Encode(text) && ParseHead(text, limits.headers) == Good(head)
    requires ExpectedBody(head.framing, rest, limits) == Some(body)
    ensures AfterHead(bytes, rest, limits) == (Read(head, body.bytes), body.rest)
  {
    DecodesEncoded(text);
  }

  lemma BodyFollows(head: seq<Byte>, rest: seq<Byte>, end: End, limit: nat)
    requires HasNoEmptyLine(head) && |head| + 4 <= limit
    ensures
      var bytes := head + TERMINATOR + rest;
      Expected(bytes, end, limit) == Head(head) && bytes[|head| + 4..] == rest
  {
    HeadIsRead(head, rest, end, limit);
  }

  // ---------------------------------------------------------------------------
  // Admission

  lemma TokenReads(token: string)
    requires IsSolid(token)
    ensures Candidate(("Authorization", Trim(" " + ("Bearer " + token), IsWhitespace))) == Some(token)
  {
    var value := "Bearer " + token;
    TrimKeeps(value);
    assert value == "Bearer" + " " + token;
    TwoWords("Bearer", token, IsAsciiWhitespace);
    SchemeIsBearer();
  }

  lemma SchemeIsBearer()
    ensures EqIgnoreCase("Authorization", "authorization") && EqIgnoreCase("Bearer", "bearer")
  {
  }

  lemma NotACandidate(header: (string, string))
    requires |header.0| != 13 && |header.0| != 15
    ensures Candidate(header).None?
  {
    assert |Lower(header.0)| == |header.0|;
  }

  /** The server admits a printed request exactly when it expects no token or the one sent. */
  lemma AdmitsExactlyTheTokenSent(api: string, token: Option<string>, length: nat, expected: Option<string>)
    requires token.Some? ==> IsSolid(token.value)
    ensures Authorized(Received(RequestFields(api, token, length)), expected) <==> expected.None? || token == expected
  {
    var fields := RequestFields(api, token, length);
    var headers := Received(fields);
    ReceivedNames(fields);
    forall i | 0 <= i < |headers| && (token.None? || i != 1)
      ensures Candidate(headers[i]).None?
    {
      NotACandidate(headers[i]);
    }
    if token.Some? {
      TokenReads(token.value);
      assert fields[1..][0] == ("Authorization", "Bearer " + token.value);
      assert headers[1] == (fields[1].0, Trim(" " + fields[1].1, IsWhitespace));
    }
  }
}
