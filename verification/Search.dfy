/**
 Searching text and reading numbers in it: the first character with a property, the
 first occurrence of a text, and unsigned decimal numbers with an optional plus sign.
 URL parsing, header parsing, index lines and key files all search this way.
 */
module Search {
  import opened Text

  /** Position of the first character that satisfies `p`, or the length. */
  function Find(s: string, p: char -> bool): (i: nat)
    ensures i <= |s| && (i < |s| ==> p(s[i]))
    ensures forall k :: 0 <= k < i ==> !p(s[k])
  {
    if s == [] || p(s[0]) then 0 else 1 + Find(s[1..], p)
  }

  /** Position of the first occurrence of `needle`. */
  function FindText(s: string, needle: string): (r: Option<nat>)
    ensures r.Some? ==> OccursAt(needle, s, r.value)
    ensures r.Some? ==> forall k: nat :: k < r.value ==> !OccursAt(needle, s, k)
    ensures r.None? ==> forall k: nat :: !OccursAt(needle, s, k)
  {
    if needle <= s then Some(0)
    else if s == [] then None
    else
      OccursInTail(s, needle);
      var rest := FindText(s[1..], needle);
      if rest.Some? then Some(rest.value + 1) else None
  }

  lemma OccursInTail(s: string, needle: string)
    requires s != []
    ensures OccursAt(needle, s, 0) == (needle <= s)
    ensures forall k: nat :: k > 0 ==> OccursAt(needle, s, k) == OccursAt(needle, s[1..], k - 1)
  {
    forall k: nat | k > 0
      ensures OccursAt(needle, s, k) == OccursAt(needle, s[1..], k - 1)
    {
      if k + |needle| <= |s| {
        SliceOfTail(s, k, |needle|);
      }
    }
  }

  lemma SliceOfTail(s: string, k: nat, n: nat)
    requires 0 < k && k + n <= |s|
    ensures s[1..][k - 1..k - 1 + n] == s[k..k + n]
  {
    var tail := s[1..];
    var left, right := tail[k - 1..k - 1 + n], s[k..k + n];
    forall i | 0 <= i < |left|
      ensures left[i] == right[i]
    {
      assert left[i] == tail[k - 1 + i] && right[i] == s[k + i];
    }
  }

  lemma FindTextExtends(s: string, more: string, needle: string)
    requires FindText(s, needle).Some?
    ensures FindText(s + more, needle) == FindText(s, needle)
  {
    var at := FindText(s, needle).value;
    forall k: nat | k <= at
      ensures OccursAt(needle, s + more, k) == OccursAt(needle, s, k)
    {
      assert (s + more)[k..k + |needle|] == s[k..k + |needle|];
    }
  }

  lemma FindMissing(s: string, p: char -> bool)
    ensures Find(s, p) == |s| ==> s[..Find(s, p)] == s
  {
  }

  lemma {:induction false} FindIs(s: string, p: char -> bool, i: nat)
    requires i < |s| && p(s[i]) && forall k :: 0 <= k < i ==> !p(s[k])
    ensures Find(s, p) == i
  {
    if i > 0 {
      FindIs(s[1..], p, i - 1);
    }
  }

  predicate IsLineFeed(c: char) {
    c == '\n'
  }

  /** The lines, each ended by a line feed. */
  function EndLines(lines: seq<string>): string {
    if lines == [] then [] else lines[0] + "\n" + EndLines(lines[1..])
  }

  lemma LineComesFirst(line: string, rest: string)
    requires '\n' !in line
    ensures var text := line + "\n" + rest;
      Find(text, IsLineFeed) == |line| && text[..|line|] == line && text[|line| + 1..] == rest
  {
    var text := line + "\n" + rest;
    assert forall i :: 0 <= i < |line| ==> text[i] == line[i] && text[i] in line;
    FindIs(text, IsLineFeed, |line|);
  }

  predicate IsColon(c: char) {
    c == ':'
  }

  /** Rust's parsing of an unsigned number: an optional plus sign and at least one digit. */
  function ParseNumber(s: string): Option<nat> {
    var digits := if "+" <= s then s[1..] else s;
    if digits == [] || exists i :: 0 <= i < |digits| && !IsAsciiDigit(digits[i]) then None
    else Some(Value(digits))
  }

  function Value(digits: string): nat
    requires forall i :: 0 <= i < |digits| ==> IsAsciiDigit(digits[i])
  {
    if digits == [] then 0
    else
      var last := digits[|digits| - 1];
      assert IsAsciiDigit(last);
      Value(digits[..|digits| - 1]) * 10 + (last as int - '0' as int)
  }
}
