/**
 Regular-expression trees and the literal that every match of one must contain,
 which the index uses to prefilter regex rules.
 */
module RegexLiteral {
  import opened Text

  /** The syntax tree of a parsed regular expression. */
  datatype Hir =
    | Empty
    | Literal(text: string)
    | Class(members: set<char>)
    | Look(assertion: nat)
    | Repetition(min: nat, max: Option<nat>, sub: Hir)
    | Group(sub: Hir)
    | Concat(parts: seq<Hir>)
    | Alternation(parts: seq<Hir>)

  /** Meaning of the zero-width assertions, which the tree only names. */
  type Looks = (nat, string, nat) -> bool

  /** `h` matches exactly `text[i..j]`, with assertions judged inside `text`. */
  ghost predicate Spans(h: Hir, looks: Looks, text: string, i: nat, j: nat)
    requires i <= j <= |text|
    decreases h, 0, 0
  {
    match h
    case Empty => i == j
    case Literal(s) => text[i..j] == s
    case Class(members) => j == i + 1 && text[i] in members
    case Look(assertion) => i == j && looks(assertion, text, i)
    case Repetition(min, max, sub) =>
      exists n: nat ::
        && min <= n && (max.None? || n <= max.value)
        && SpansTimes(sub, n, looks, text, i, j)
    case Group(sub) => Spans(sub, looks, text, i, j)
    case Concat(parts) => SpansAll(parts, looks, text, i, j)
    case Alternation(parts) =>
      exists k :: 0 <= k < |parts| && Spans(parts[k], looks, text, i, j)
  }

  /** `n` consecutive matches of `h` make up `text[i..j]`. */
  ghost predicate SpansTimes(h: Hir, n: nat, looks: Looks, text: string, i: nat, j: nat)
    requires i <= j <= |text|
    decreases h, 1, n
  {
    if n == 0 then i == j
    else exists m: nat | i <= m <= j ::
      Spans(h, looks, text, i, m) && SpansTimes(h, n - 1, looks, text, m, j)
  }

  /** Consecutive matches of all the parts, in order, make up `text[i..j]`. */
  ghost predicate SpansAll(parts: seq<Hir>, looks: Looks, text: string, i: nat, j: nat)
    requires i <= j <= |text|
    decreases parts, 1, |parts|
  {
    if parts == [] then i == j
    else exists m: nat | i <= m <= j ::
      Spans(parts[0], looks, text, i, m) && SpansAll(parts[1..], looks, text, m, j)
  }

  /** An unanchored search for `h` succeeds in `text`. */
  ghost predicate Finds(h: Hir, looks: Looks, text: string) {
    exists i: nat, j: nat | i <= j <= |text| :: Spans(h, looks, text, i, j)
  }

  /** The longest literal found on every path through the tree. */
  function LongestRequired(h: Hir): Option<string>
    decreases h, 0
  {
    match h
    case Literal(s) => Some(s)
    case Group(sub) => LongestRequired(sub)
    case Concat(parts) => LongestOf(parts)
    case Repetition(min, _, sub) => if min > 0 then LongestRequired(sub) else None
    case _ => None
  }

  /** The longest literal required by any part; the last one among equals. */
  function LongestOf(parts: seq<Hir>): Option<string>
    decreases parts, 1
  {
    if parts == [] then None
    else
      var first := LongestRequired(parts[0]);
      var rest := LongestOf(parts[1..]);
      if first.None? then rest
      else if rest.Some? && Utf8Length(first.value) <= Utf8Length(rest.value) then rest
      else first
  }

  datatype RegexMatcher = RegexMatcher(pattern: string, caseInsensitive: bool, syntax: Option<Hir>)

  /** The literal the index files a regex rule under, when it is worth one. */
  function RequiredLiteral(regex: RegexMatcher): Option<string> {
    if regex.caseInsensitive || regex.syntax.None? then None
    else
      var literal := LongestRequired(regex.syntax.value);
      if literal.Some? && Utf8Length(literal.value) >= 3 then literal else None
  }

  ghost predicate OccursWithin(needle: string, text: string, i: nat, j: nat) {
    exists at: nat :: i <= at && at + |needle| <= j && OccursAt(needle, text, at)
  }

  lemma FirstCopy(h: Hir, n: nat, looks: Looks, text: string, i: nat, j: nat) returns (m: nat)
    requires i <= j <= |text| && 0 < n && SpansTimes(h, n, looks, text, i, j)
    ensures i <= m <= j && Spans(h, looks, text, i, m)
  {
    m :| i <= m <= j && Spans(h, looks, text, i, m) && SpansTimes(h, n - 1, looks, text, m, j);
  }

  /** Every span matched by the tree contains its longest required literal. */
  lemma {:induction false} SpanContainsLiteral(h: Hir, looks: Looks, text: string, i: nat, j: nat)
    requires i <= j <= |text| && Spans(h, looks, text, i, j)
    requires LongestRequired(h).Some?
    ensures OccursWithin(LongestRequired(h).value, text, i, j)
    decreases h, 0
  {
    match h
    case Literal(s) => assert OccursAt(s, text, i);
    case Group(sub) => SpanContainsLiteral(sub, looks, text, i, j);
    case Concat(parts) => PartsContainLiteral(parts, looks, text, i, j);
    case Repetition(min, max, sub) =>
      var n: nat :| min <= n && SpansTimes(sub, n, looks, text, i, j);
      var m := FirstCopy(sub, n, looks, text, i, j);
      SpanContainsLiteral(sub, looks, text, i, m);
  }

  lemma {:induction false} PartsContainLiteral(parts: seq<Hir>, looks: Looks, text: string, i: nat, j: nat)
    requires i <= j <= |text| && SpansAll(parts, looks, text, i, j)
    requires LongestOf(parts).Some?
    ensures OccursWithin(LongestOf(parts).value, text, i, j)
    decreases parts, 1
  {
    var m: nat :| i <= m <= j && Spans(parts[0], looks, text, i, m) && SpansAll(parts[1..], looks, text, m, j);
    if LongestOf(parts) == LongestRequired(parts[0]) {
      SpanContainsLiteral(parts[0], looks, text, i, m);
    } else {
      PartsContainLiteral(parts[1..], looks, text, m, j);
    }
  }

  /** A text that a regex matches contains the literal the index files it under. */
  lemma RequiredLiteralOccurs(regex: RegexMatcher, looks: Looks, text: string)
    requires RequiredLiteral(regex).Some? && Finds(regex.syntax.value, looks, text)
    ensures Occurs(RequiredLiteral(regex).value, text)
  {
    var i: nat, j: nat :| i <= j <= |text| && Spans(regex.syntax.value, looks, text, i, j);
    SpanContainsLiteral(regex.syntax.value, looks, text, i, j);
  }

  /** Chosen literals are never shorter than any part's own required literal. */
  lemma {:induction false} LongestOfIsLongest(parts: seq<Hir>, k: nat)
    requires k < |parts| && LongestRequired(parts[k]).Some?
    ensures LongestOf(parts).Some?
    ensures Utf8Length(LongestRequired(parts[k]).value) <= Utf8Length(LongestOf(parts).value)
  {
    if k > 0 {
      assert parts[1..][k - 1] == parts[k];
      LongestOfIsLongest(parts[1..], k - 1);
    }
  }
}
