/**
 The control protocol: how the client prints a request, how the server parses its
 head, and how the server checks the bearer token.
 */
module ControlProtocol {
  import opened Text
  import opened Bytes
  import opened Utf8
  import opened Tokens
  import opened Search

  // ---------------------------------------------------------------------------
  // Printing

  type Headers = seq<(string, string)>

  function RequestLine(verb: string, path: string): string {
    verb + " " + (path + " " + "HTTP/1.1")
  }

  function TokenFields(token: Option<string>): Headers {
    if token.None? then [] else [("Authorization", "Bearer " + token.value)]
  }

  /** The header fields of a request whose body has `length` bytes. */
  function RequestFields(api: string, token: Option<string>, length: nat): Headers {
    [("Host", api)] + TokenFields(token) + [("Connection", "close"), ("Content-Length", Decimal(length))]
  }

  function FieldLines(fields: Headers): seq<string> {
    if fields == [] then [] else [fields[0].0 + ": " + fields[0].1] + FieldLines(fields[1..])
  }

  function CrlfLines(lines: seq<string>): string {
    if lines == [] then [] else lines[0] + "\r\n" + CrlfLines(lines[1..])
  }

  /** The request the client sends; the length counts the bytes of the body. */
  function RequestText(verb: string, api: string, path: string, body: string, token: Option<string>): string {
    var fields := RequestFields(api, token, Utf8Length(body));
    CrlfLines([RequestLine(verb, path)] + FieldLines(fields)) + "\r\n" + body
  }

  // ---------------------------------------------------------------------------
  // Reading a head

  function SplitLines(text: string): seq<string>
    decreases |text|
  {
    var at := FindText(text, "\r\n");
    if at.None? then [text] else [text[..at.value]] + SplitLines(text[at.value + 2..])
  }

  datatype Parsed<+T> = Good(value: T) | Bad

  predicate IsHeaderNameChar(c: char) {
    IsAsciiAlphanumeric(c) || c in "!#$%&'*+-.^_`|~"
  }

  function ParseHeader(line: string): Parsed<(string, string)> {
    var colon := Find(line, IsColon);
    if colon == 0 || colon == |line| || exists i :: 0 <= i < colon && !IsHeaderNameChar(line[i]) then Bad
    else Good((line[..colon], Trim(line[colon + 1..], IsWhitespace)))
  }

  /** Adds the headers on the lines to those read so far, skipping empty lines. */
  function ParseHeaders(lines: seq<string>, headers: Headers, limit: nat): Parsed<Headers> {
    if lines == [] then Good(headers)
    else if lines[0] == [] then ParseHeaders(lines[1..], headers, limit)
    else if |headers| >= limit then Bad
    else
      var header := ParseHeader(lines[0]);
      if header.Bad? then Bad else ParseHeaders(lines[1..], headers + [header.value], limit)
  }

  /** The one length the headers agree on, if they name any. */
  function ContentLength(headers: Headers, length: Option<nat>): Parsed<Option<nat>> {
    if headers == [] then Good(length)
    else if !EqIgnoreCase(headers[0].0, "content-length") then ContentLength(headers[1..], length)
    else
      var parsed := ParseUpTo(headers[0].1, MAX_USIZE);
      if parsed.None? || (length.Some? && length != parsed) then Bad
      else ContentLength(headers[1..], parsed)
  }

  function SplitCommas(s: string): seq<string>
    decreases |s|
  {
    var at := FindText(s, ",");
    if at.None? then [s] else [s[..at.value]] + SplitCommas(s[at.value + 1..])
  }

  function NonEmptyTrimmed(parts: seq<string>): seq<string> {
    if parts == [] then []
    else
      var part := Trim(parts[0], IsWhitespace);
      (if part == [] then [] else [part]) + NonEmptyTrimmed(parts[1..])
  }

  function Codings(headers: Headers): seq<string> {
    if headers == [] then []
    else
      (if EqIgnoreCase(headers[0].0, "transfer-encoding") then NonEmptyTrimmed(SplitCommas(headers[0].1)) else [])
      + Codings(headers[1..])
  }

  function TransferChunked(headers: Headers): Parsed<bool> {
    var codings := Codings(headers);
    if codings == [] then Good(false)
    else if EqIgnoreCase(codings[|codings| - 1], "chunked")
         && forall i :: 0 <= i < |codings| - 1 ==> EqIgnoreCase(codings[i], "identity") then Good(true)
    else Bad
  }

  datatype Framing = NoBody | Sized(length: nat) | Chunked

  datatype RequestHead = RequestHead(verb: string, target: string, headers: Headers, framing: Framing)

  function ParseHead(text: string, headerLimit: nat): Parsed<RequestHead> {
    var lines := SplitLines(text);
    var words := Words(lines[0], IsAsciiWhitespace);
    if |words| != 3 || (words[2] != "HTTP/1.0" && words[2] != "HTTP/1.1") then Bad
    else
      var headers := ParseHeaders(lines[1..], [], headerLimit);
      if headers.Bad? then Bad
      else
        var length := ContentLength(headers.value, None);
        var chunked := TransferChunked(headers.value);
        if length.Bad? || chunked.Bad? || (length.value.Some? && chunked.value) then Bad
        else
          Good(RequestHead(words[0], words[1], headers.value,
                           if chunked.value then Chunked
                           else if length.value.Some? then Sized(length.value.value)
                           else NoBody))
  }

  // ---------------------------------------------------------------------------
  // Authorization

  /** The token of a `Bearer` credential (section 2.1 of RFC 6750). */
  function BearerToken(value: string): Option<string> {
    var parts := Words(value, IsAsciiWhitespace);
    if |parts| == 2 && EqIgnoreCase(parts[0], "bearer") then Some(parts[1]) else None
  }

  function Candidate(header: (string, string)): Option<string> {
    if EqIgnoreCase(header.0, "authorization") then BearerToken(header.1)
    else if EqIgnoreCase(header.0, "x-rsproxy-token") then Some(Trim(header.1, IsWhitespace))
    else None
  }

  predicate Authorized(headers: Headers, expected: Option<string>) {
    expected.None? || exists i :: 0 <= i < |headers| && Candidate(headers[i]) == expected
  }

  function BitXor(a: nat, b: nat): nat {
    if a == 0 && b == 0 then 0 else (a % 2 + b % 2) % 2 + 2 * BitXor(a / 2, b / 2)
  }

  function BitOr(a: nat, b: nat): nat {
    if a == 0 && b == 0 then 0 else (if a % 2 == 1 || b % 2 == 1 then 1 else 0) + 2 * BitOr(a / 2, b / 2)
  }

  lemma {:induction false} XorIsZero(a: nat, b: nat)
    ensures BitXor(a, b) == 0 <==> a == b
    decreases a + b
  {
    if a > 0 || b > 0 {
      XorIsZero(a / 2, b / 2);
    }
  }

  lemma {:induction false} OrIsZero(a: nat, b: nat)
    ensures BitOr(a, b) == 0 <==> a == 0 && b == 0
    decreases a + b
  {
    if a > 0 || b > 0 {
      OrIsZero(a / 2, b / 2);
    }
  }

  /** Compares two byte strings in a time that depends only on their lengths. */
  method ConstantTimeEq(candidate: seq<Byte>, expected: seq<Byte>) returns (equal: bool)
    ensures equal <==> candidate == expected
  {
    var difference := BitXor(|candidate|, |expected|);
    XorIsZero(|candidate|, |expected|);
    var longest := if |candidate| > |expected| then |candidate| else |expected|;
    for index := 0 to longest
      invariant difference == 0 <==>
        |candidate| == |expected| && forall i :: 0 <= i < index && i < |candidate| ==> candidate[i] == expected[i]
    {
      var left := if index < |candidate| then candidate[index] else 0;
      var right := if index < |expected| then expected[index] else 0;
      XorIsZero(left, right);
      OrIsZero(difference, BitXor(left, right));
      difference := BitOr(difference, BitXor(left, right));
    }
    equal := difference == 0;
  }

  /** Looks for a header that carries the expected token. */
  method ControlAuthorized(headers: Headers, expected: Option<string>) returns (authorized: bool)
    ensures authorized <==> Authorized(headers, expected)
  {
    if expected.None? {
      return true;
    }
    for i := 0 to |headers|
      invariant forall k :: 0 <= k < i ==> Candidate(headers[k]) != expected
    {
      var candidate := Candidate(headers[i]);
      if candidate.Some? {
        var equal := ConstantTimeEq(Encode(candidate.value), Encode(expected.value));
        if equal {
          DecodesEncoded(candidate.value);
          DecodesEncoded(expected.value);
          return true;
        }
      }
    }
    authorized := false;
  }
}
