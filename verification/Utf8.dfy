/**
 UTF-8: encoding distributes over concatenation, ASCII bytes stand for ASCII characters
 and nothing else, and decoding accepts exactly the encodings. The wire formats rely on
 the first two to find line ends in bytes, and on the last to read text back.
 */
module Utf8 {
  import opened Text
  import opened Bytes

  function EncodeChar(c: char): (bytes: seq<Byte>)
    ensures |bytes| == Utf8Width(c)
    ensures c as int < 0x80 ==> bytes == [c as int]
    ensures c as int >= 0x80 ==> forall i :: 0 <= i < |bytes| ==> bytes[i] >= 0x80
  {
    var n := c as int;
    if n < 0x80 then [n]
    else if n < 0x800 then [0xC0 + n / 64, 0x80 + n % 64]
    else if n < 0x10000 then [0xE0 + n / 4096, 0x80 + n / 64 % 64, 0x80 + n % 64]
    else [0xF0 + n / 262144, 0x80 + n / 4096 % 64, 0x80 + n / 64 % 64, 0x80 + n % 64]
  }

  function Encode(s: string): (bytes: seq<Byte>)
    ensures |bytes| == Utf8Length(s)
  {
    if s == [] then [] else EncodeChar(s[0]) + Encode(s[1..])
  }

  lemma {:induction false} EncodeAppend(a: string, b: string)
    ensures Encode(a + b) == Encode(a) + Encode(b)
    decreases |a|
  {
    if a == [] {
      assert a + b == b;
    } else {
      assert (a + b)[1..] == a[1..] + b;
      EncodeAppend(a[1..], b);
    }
  }

  /** Text without a given ASCII character encodes to bytes without it. */
  lemma {:induction false} EncodeAvoids(s: string, c: char)
    requires c !in s && c as int < 0x80
    ensures c as int !in Encode(s)
    decreases |s|
  {
    if s != [] {
      assert s[0] in s;
      EncodeAvoids(s[1..], c);
    }
  }

  lemma EncodeNonEmpty(s: string)
    requires s != []
    ensures Encode(s) != []
  {
  }

  predicate IsScalar(n: int) {
    0 <= n < 0xD800 || 0xE000 <= n < 0x11_0000
  }

  /** The six bits a byte adds to a number. */
  function Add(n: int, byte: Byte): int {
    n * 64 + (byte as int - 0x80)
  }

  /** The number that the leading bytes spell, if they are the encoding of one. */
  function Spelled(bytes: seq<Byte>): int
    requires bytes != []
  {
    var b := bytes[0] as int;
    if b < 0xC0 then b
    else if b < 0xE0 then if |bytes| < 2 then -1 else Add(b - 0xC0, bytes[1])
    else if b < 0xF0 then if |bytes| < 3 then -1 else Add(Add(b - 0xE0, bytes[1]), bytes[2])
    else if |bytes| < 4 then -1
    else Add(Add(Add(b - 0xF0, bytes[1]), bytes[2]), bytes[3])
  }

  /** Rust's `str::from_utf8`. */
  function Decode(bytes: seq<Byte>): Option<string> {
    if bytes == [] then Some([])
    else
      var n := Spelled(bytes);
      if !IsScalar(n) || !(EncodeChar(n as char) <= bytes) then None
      else
        var rest := Decode(bytes[Utf8Width(n as char)..]);
        if rest.None? then None else Some([n as char] + rest.value)
  }

  lemma SpelledIsEncoded(c: char, rest: seq<Byte>)
    ensures Spelled(EncodeChar(c) + rest) == c as int
  {
    var n := c as int;
    SixBits(n);
    SixBits(n / 64);
    SixBits(n / 4096);
    Shifts(n);
    var bytes, first := EncodeChar(c) + rest, EncodeChar(c);
    assert forall i :: 0 <= i < |first| ==> bytes[i] == first[i];
  }

  lemma SixBits(n: nat)
    ensures Add(n / 64, 0x80 + n % 64) == n
  {
  }

  lemma Shifts(n: nat)
    ensures n / 64 / 64 == n / 4096 && n / 4096 / 64 == n / 262144
  {
  }

  lemma {:induction false} DecodesEncoded(s: string)
    ensures Decode(Encode(s)) == Some(s)
    decreases |s|
  {
    if s != [] {
      var first, rest := EncodeChar(s[0]), Encode(s[1..]);
      SpelledIsEncoded(s[0], rest);
      assert (first + rest)[Utf8Width(s[0])..] == rest;
      DecodesEncoded(s[1..]);
      assert [s[0]] + s[1..] == s;
    }
  }

  lemma {:induction false} EncodesDecoded(bytes: seq<Byte>)
    requires Decode(bytes).Some?
    ensures Encode(Decode(bytes).value) == bytes
    decreases |bytes|
  {
    if bytes != [] {
      var c := Spelled(bytes) as char;
      var rest := bytes[Utf8Width(c)..];
      EncodesDecoded(rest);
      SplitOff(EncodeChar(c), bytes);
      EncodeCons(c, Decode(rest).value);
    }
  }

  lemma SplitOff(first: seq<Byte>, bytes: seq<Byte>)
    requires first <= bytes
    ensures bytes == first + bytes[|first|..]
  {
  }

  lemma EncodeCons(c: char, s: string)
    ensures Encode([c] + s) == EncodeChar(c) + Encode(s)
  {
    assert ([c] + s)[1..] == s;
  }

  /** The bytes that decode are exactly the encodings, and each decodes to its text. */
  lemma DecodeIsExact(bytes: seq<Byte>, s: string)
    ensures Decode(bytes) == Some(s) <==> bytes == Encode(s)
  {
    DecodesEncoded(s);
    if Decode(bytes).Some? {
      EncodesDecoded(bytes);
    }
  }
}
