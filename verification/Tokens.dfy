/**
 Words and numbers in text: splitting at white space, for any notion of it, and reading
 back what decimal and hexadecimal formatting prints. The control protocol splits its
 request line and its credentials this way, and the spill log the lines of its index.
 */
module Tokens {
  import opened Text
  import opened Search

  predicate IsAsciiWhitespace(c: char) {
    c == ' ' || c == '\t' || c == '\n' || c == '\r' || c as int == 12
  }

  function WordLength(s: string, space: char -> bool): (n: nat)
    ensures n <= |s| && (forall i :: 0 <= i < n ==> !space(s[i]))
    ensures n < |s| ==> space(s[n])
  {
    if s == [] || space(s[0]) then 0 else 1 + WordLength(s[1..], space)
  }

  /** The words between runs of white space. */
  function Words(s: string, space: char -> bool): seq<string>
    decreases |s|
  {
    if s == [] then []
    else if space(s[0]) then Words(s[1..], space)
    else [s[..WordLength(s, space)]] + Words(s[WordLength(s, space)..], space)
  }

  /** Text that splitting keeps whole. */
  predicate IsWord(s: string, space: char -> bool) {
    s != [] && forall i :: 0 <= i < |s| ==> !space(s[i])
  }

  lemma {:induction false} WordLengthIs(s: string, space: char -> bool, n: nat)
    requires n <= |s| && (forall i :: 0 <= i < n ==> !space(s[i])) && (n < |s| ==> space(s[n]))
    ensures WordLength(s, space) == n
    decreases n
  {
    if n > 0 {
      WordLengthIs(s[1..], space, n - 1);
    }
  }

  lemma FirstWord(word: string, rest: string, space: char -> bool)
    requires IsWord(word, space) && space(' ')
    ensures Words(word + " " + rest, space) == [word] + Words(rest, space)
    ensures Words(word, space) == [word]
  {
    var text := word + " " + rest;
    assert forall i :: 0 <= i < |word| ==> text[i] == word[i];
    WordLengthIs(text, space, |word|);
    assert text[..|word|] == word;
    assert text[|word|..] == " " + rest;
    assert (" " + rest)[1..] == rest;
    WordLengthIs(word, space, |word|);
    assert word[..|word|] == word && word[|word|..] == [];
  }

  lemma TwoWords(a: string, b: string, space: char -> bool)
    requires IsWord(a, space) && IsWord(b, space) && space(' ')
    ensures Words(a + " " + b, space) == [a, b]
  {
    FirstWord(a, b, space);
    FirstWord(b, "", space);
  }

  lemma ThreeWords(a: string, b: string, c: string, space: char -> bool)
    requires IsWord(a, space) && IsWord(b, space) && IsWord(c, space) && space(' ')
    ensures Words(a + " " + (b + " " + c), space) == [a, b, c]
  {
    FirstWord(a, b + " " + c, space);
    TwoWords(b, c, space);
  }

  lemma FourWords(a: string, b: string, c: string, d: string, space: char -> bool)
    requires IsWord(a, space) && IsWord(b, space) && IsWord(c, space) && IsWord(d, space) && space(' ')
    ensures Words(a + " " + (b + " " + (c + " " + d)), space) == [a, b, c, d]
  {
    FirstWord(a, b + " " + (c + " " + d), space);
    ThreeWords(b, c, d, space);
  }

  // ---------------------------------------------------------------------------
  // Numbers

  lemma {:induction false} NumberReads(n: nat)
    ensures forall i :: 0 <= i < |Decimal(n)| ==> IsAsciiDigit(Decimal(n)[i])
    ensures Decimal(n) != [] && Value(Decimal(n)) == n
    decreases n
  {
    if n < 10 {
      assert Decimal(n)[..0] == [];
    } else {
      NumberReads(n / 10);
      NumberReads(n % 10);
      var digits := Decimal(n);
      assert Decimal(n % 10) == [digits[|digits| - 1]];
      assert digits[..|digits| - 1] == Decimal(n / 10);
    }
  }

  /** The largest 64-bit number. */
  const MAX_USIZE := 0xFFFF_FFFF_FFFF_FFFF

  /** An integer of a given width, as `parse` reads it. */
  function ParseUpTo(s: string, max: nat): Option<nat> {
    var n := ParseNumber(s);
    if n.Some? && n.value <= max then n else None
  }

  lemma DecimalParses(n: nat, max: nat)
    requires n <= max
    ensures ParseUpTo(Decimal(n), max) == Some(n)
  {
    NumberReads(n);
    assert Decimal(n)[0] != '+';
  }

  function HexDigit(n: nat): char
    requires n < 16
  {
    "0123456789abcdef"[n]
  }

  /** The last `width` hexadecimal digits of a number. */
  function Hex(n: nat, width: nat): (s: string)
    ensures |s| == width
  {
    if width == 0 then [] else Hex(n / 16, width - 1) + [HexDigit(n % 16)]
  }

  predicate IsHexDigit(c: char) {
    '0' <= c <= '9' || 'a' <= c <= 'f' || 'A' <= c <= 'F'
  }

  function DigitValue(c: char): nat
    requires IsHexDigit(c)
  {
    if c <= '9' then c as int - '0' as int
    else if c <= 'F' then c as int - 'A' as int + 10
    else c as int - 'a' as int + 10
  }

  predicate AllHex(s: string) {
    forall i :: 0 <= i < |s| ==> IsHexDigit(s[i])
  }

  function HexValue(s: string): nat
    requires AllHex(s)
  {
    if s == [] then 0 else HexValue(s[..|s| - 1]) * 16 + DigitValue(s[|s| - 1])
  }

  /** `from_str_radix` with radix 16. */
  function ParseHex(s: string, max: nat): Option<nat> {
    var digits := if "+" <= s then s[1..] else s;
    if digits == [] || !AllHex(digits) || HexValue(digits) > max then None else Some(HexValue(digits))
  }

  function Pow16(k: nat): nat {
    if k == 0 then 1 else 16 * Pow16(k - 1)
  }

  lemma HexDigitReads(n: nat)
    requires n < 16
    ensures IsHexDigit(HexDigit(n)) && DigitValue(HexDigit(n)) == n
  {
  }

  lemma {:induction false} HexReads(n: nat, width: nat)
    requires n < Pow16(width)
    ensures AllHex(Hex(n, width)) && HexValue(Hex(n, width)) == n
    decreases width
  {
    if width > 0 {
      HexReads(n / 16, width - 1);
      HexDigitReads(n % 16);
      assert Hex(n, width)[..width - 1] == Hex(n / 16, width - 1);
    }
  }
}
