/**
 Glob patterns: their direct meaning, the regular-expression source they are
 compiled to, and the proof that compilation preserves that meaning.
 */
module Glob {
  import opened Text

  const MAX_CAPTURES := 9

  // ---------------------------------------------------------------------------
  // Direct meaning

  /**
   `text` matches `pattern`: a backslash quotes the next character, `*` stands for
   text without the separator, `**` for any text.
   */
  predicate Accepts(pattern: string, sep: char, text: string) {
    if pattern == [] then text == []
    else if pattern[0] == '\\' then
      |pattern| > 1 && text != [] && text[0] == pattern[1] && Accepts(pattern[2..], sep, text[1..])
    else if pattern[0] != '*' then
      text != [] && text[0] == pattern[0] && Accepts(pattern[1..], sep, text[1..])
    else if IsDouble(pattern) then
      exists k | 0 <= k <= |text| :: Accepts(pattern[2..], sep, text[k..])
    else
      exists k | 0 <= k <= |text| :: sep !in text[..k] && Accepts(pattern[1..], sep, text[k..])
  }

  predicate IsDouble(pattern: string) {
    |pattern| > 1 && pattern[0] == '*' && pattern[1] == '*'
  }

  function AfterWildcard(pattern: string): string
    requires pattern != []
  {
    if IsDouble(pattern) then pattern[2..] else pattern[1..]
  }

  /** A backslash with nothing left to quote. */
  predicate DanglingEscape(pattern: string) {
    if pattern == [] then false
    else if pattern[0] == '\\' then |pattern| == 1 || DanglingEscape(pattern[2..])
    else DanglingEscape(pattern[1..])
  }

  function Wildcards(pattern: string): nat {
    if pattern == [] then 0
    else if pattern[0] == '\\' then if |pattern| == 1 then 0 else Wildcards(pattern[2..])
    else if pattern[0] != '*' then Wildcards(pattern[1..])
    else 1 + Wildcards(AfterWildcard(pattern))
  }

  /** The text each wildcard stands for, every wildcard taking as little as it can. */
  function Capture(pattern: string, sep: char, text: string): Option<seq<string>>
    decreases |pattern|, |text| + 1
  {
    if pattern == [] then if text == [] then Some([]) else None
    else if pattern[0] == '\\' then
      if |pattern| > 1 && text != [] && text[0] == pattern[1]
      then Capture(pattern[2..], sep, text[1..]) else None
    else if pattern[0] != '*' then
      if text != [] && text[0] == pattern[0] then Capture(pattern[1..], sep, text[1..]) else None
    else CaptureFrom(pattern, sep, text, 0)
  }

  /** As `Capture` of a pattern starting with a wildcard that takes at least `k` characters. */
  function CaptureFrom(pattern: string, sep: char, text: string, k: nat): Option<seq<string>>
    requires pattern != [] && pattern[0] == '*' && k <= |text|
    decreases |pattern|, |text| - k
  {
    var rest := Capture(AfterWildcard(pattern), sep, text[k..]);
    if rest.Some? then Some([text[..k]] + rest.value)
    else if k < |text| && (IsDouble(pattern) || text[k] != sep)
    then CaptureFrom(pattern, sep, text, k + 1)
    else None
  }

  /** The pattern with its wildcards replaced by the given texts. */
  function Fill(pattern: string, texts: seq<string>): string {
    if pattern == [] then []
    else if pattern[0] == '\\' then
      if |pattern| == 1 then [] else [pattern[1]] + Fill(pattern[2..], texts)
    else if pattern[0] != '*' then [pattern[0]] + Fill(pattern[1..], texts)
    else if texts == [] then []
    else texts[0] + Fill(AfterWildcard(pattern), texts[1..])
  }

  /** Captures exist exactly for accepted texts, one per wildcard, and give the text back. */
  lemma {:induction false} CaptureIsComplete(pattern: string, sep: char, text: string)
    ensures Capture(pattern, sep, text).Some? <==> Accepts(pattern, sep, text)
    ensures Accepts(pattern, sep, text) ==>
      var texts := Capture(pattern, sep, text).value;
      |texts| == Wildcards(pattern) && Fill(pattern, texts) == text
    decreases |pattern|, |text| + 1
  {
    if pattern == [] {
    } else if pattern[0] == '\\' {
      if |pattern| > 1 && text != [] {
        CaptureIsComplete(pattern[2..], sep, text[1..]);
      }
    } else if pattern[0] != '*' {
      if text != [] {
        CaptureIsComplete(pattern[1..], sep, text[1..]);
      }
    } else {
      CaptureFromIsComplete(pattern, sep, text, 0);
      assert text[0..] == text;
      forall k | 0 <= k <= |text|
        ensures text[..k] == text[0..k]
      {
      }
    }
  }

  lemma {:induction false} CaptureFromIsComplete(pattern: string, sep: char, text: string, k: nat)
    requires pattern != [] && pattern[0] == '*' && k <= |text|
    ensures CaptureFrom(pattern, sep, text, k).Some? <==>
      exists m | k <= m <= |text| ::
        (IsDouble(pattern) || sep !in text[k..m]) && Accepts(AfterWildcard(pattern), sep, text[m..])
    ensures CaptureFrom(pattern, sep, text, k).Some? ==>
      var texts := CaptureFrom(pattern, sep, text, k).value;
      |texts| == Wildcards(pattern) && Fill(pattern, texts) == text
    decreases |pattern|, |text| - k
  {
    var rest := AfterWildcard(pattern);
    CaptureIsComplete(rest, sep, text[k..]);
    if Accepts(rest, sep, text[k..]) {
      var texts := Capture(rest, sep, text[k..]).value;
      assert sep !in text[k..k];
      assert ([text[..k]] + texts)[1..] == texts;
      assert text[..k] + text[k..] == text;
    } else if k < |text| && (IsDouble(pattern) || text[k] != sep) {
      CaptureFromIsComplete(pattern, sep, text, k + 1);
      forall m | k < m <= |text|
        ensures sep in text[k..m] <==> sep == text[k] || sep in text[k + 1..m]
      {
        assert text[k..m] == [text[k]] + text[k + 1..m];
      }
    } else {
      forall m | k < m <= |text|
        ensures text[k] in text[k..m]
      {
        assert text[k..m][0] == text[k];
      }
    }
  }

  // ---------------------------------------------------------------------------
  // Compilation to regular-expression source

  /** The characters that `regex_syntax` requires to be escaped. */
  predicate IsMeta(c: char) {
    c in "\\.+*?()|[]{}^$#&-~"
  }

  function LiteralSource(c: char): string {
    if IsMeta(c) then ['\\', c] else [c]
  }

  function Repetition(double: bool, sep: char): string {
    if double then ".*?" else "[^" + LiteralSource(sep) + "]*?"
  }

  function WildcardSource(double: bool, sep: char, captured: bool): string {
    (if captured then "(" else "(?:") + Repetition(double, sep) + ")"
  }

  const OPENING := "(?s)\\A"
  const CLOSING := "\\z"

  /** Source for the rest of a pattern once `captures` groups have been opened. */
  function BodySource(pattern: string, sep: char, captures: nat): Option<string> {
    if pattern == [] then Some([])
    else if pattern[0] == '\\' then
      if |pattern| == 1 then None
      else Prepend(LiteralSource(pattern[1]), BodySource(pattern[2..], sep, captures))
    else if pattern[0] != '*' then
      Prepend(LiteralSource(pattern[0]), BodySource(pattern[1..], sep, captures))
    else
      var captured := captures < MAX_CAPTURES;
      Prepend(WildcardSource(IsDouble(pattern), sep, captured),
              BodySource(AfterWildcard(pattern), sep, if captured then captures + 1 else captures))
  }

  function Prepend(head: string, tail: Option<string>): Option<string> {
    if tail.None? then None else Some(head + tail.value)
  }

  function Source(pattern: string, sep: char): Option<string> {
    var body := BodySource(pattern, sep, 0);
    if body.None? then None else Some(OPENING + body.value + CLOSING)
  }

  /** The body when `built` stands for the pattern before position `i`. */
  function Continued(built: string, pattern: string, i: nat, sep: char, captures: nat): Option<string>
    requires i <= |pattern|
  {
    Prepend(built, BodySource(pattern[i..], sep, captures))
  }

  /** Builds the source of the anchored regular expression for a glob. */
  method CompileSource(pattern: string, sep: char) returns (source: Option<string>)
    ensures source == Source(pattern, sep)
  {
    var text := OPENING;
    ghost var built := "";
    var i := 0;
    var captures := 0;
    ContinuedEnds(pattern, sep, built, captures);
    assert OPENING + "" == OPENING;
    while i < |pattern|
      invariant 0 <= i <= |pattern|
      invariant text == OPENING + built
      invariant BodySource(pattern, sep, 0) == Continued(built, pattern, i, sep, captures)
    {
      var piece;
      if pattern[i] == '\\' {
        EscapeContinues(built, pattern, i, sep, captures);
        if i + 1 == |pattern| {
          return None;
        }
        piece := LiteralSource(pattern[i + 1]);
        i := i + 2;
      } else if pattern[i] != '*' {
        CharContinues(built, pattern, i, sep, captures);
        piece := LiteralSource(pattern[i]);
        i := i + 1;
      } else {
        var double := i + 1 < |pattern| && pattern[i + 1] == '*';
        WildcardContinues(built, pattern, i, sep, captures);
        piece := WildcardSource(double, sep, captures < MAX_CAPTURES);
        captures := if captures < MAX_CAPTURES then captures + 1 else captures;
        i := if double then i + 2 else i + 1;
      }
      Regroup(OPENING, built, piece);
      text, built := text + piece, built + piece;
    }
    ContinuedEnds(pattern, sep, built, captures);
    source := Some(text + CLOSING);
  }

  lemma ContinuedEnds(pattern: string, sep: char, built: string, captures: nat)
    ensures Continued("", pattern, 0, sep, captures) == BodySource(pattern, sep, captures)
    ensures Continued(built, pattern, |pattern|, sep, captures) == Some(built)
  {
    assert pattern[0..] == pattern;
    assert built + [] == built;
    if BodySource(pattern, sep, captures).Some? {
      var body := BodySource(pattern, sep, captures).value;
      assert "" + body == body;
    }
  }

  lemma EscapeContinues(built: string, pattern: string, i: nat, sep: char, captures: nat)
    requires i < |pattern| && pattern[i] == '\\'
    ensures i + 1 == |pattern| ==> Continued(built, pattern, i, sep, captures) == None
    ensures i + 1 < |pattern| ==> Continued(built, pattern, i, sep, captures)
                                  == Continued(built + LiteralSource(pattern[i + 1]), pattern, i + 2, sep, captures)
  {
    if i + 1 < |pattern| {
      assert pattern[i..][2..] == pattern[i + 2..];
      PrependTwice(built, LiteralSource(pattern[i + 1]), BodySource(pattern[i + 2..], sep, captures));
    }
  }

  lemma CharContinues(built: string, pattern: string, i: nat, sep: char, captures: nat)
    requires i < |pattern| && pattern[i] != '\\' && pattern[i] != '*'
    ensures Continued(built, pattern, i, sep, captures)
         == Continued(built + LiteralSource(pattern[i]), pattern, i + 1, sep, captures)
  {
    assert pattern[i..][1..] == pattern[i + 1..];
    PrependTwice(built, LiteralSource(pattern[i]), BodySource(pattern[i + 1..], sep, captures));
  }

  lemma WildcardContinues(built: string, pattern: string, i: nat, sep: char, captures: nat)
    requires i < |pattern| && pattern[i] == '*'
    ensures
      var double := i + 1 < |pattern| && pattern[i + 1] == '*';
      var captured := captures < MAX_CAPTURES;
      Continued(built, pattern, i, sep, captures)
      == Continued(built + WildcardSource(double, sep, captured), pattern, if double then i + 2 else i + 1, sep,
                   if captured then captures + 1 else captures)
  {
    var double := i + 1 < |pattern| && pattern[i + 1] == '*';
    var captured := captures < MAX_CAPTURES;
    var rest := pattern[if double then i + 2 else i + 1..];
    assert AfterWildcard(pattern[i..]) == rest;
    PrependTwice(built, WildcardSource(double, sep, captured),
                 BodySource(rest, sep, if captured then captures + 1 else captures));
  }

  lemma PrependTwice(a: string, b: string, tail: Option<string>)
    ensures Prepend(a, Prepend(b, tail)) == Prepend(a + b, tail)
  {
    if tail.Some? {
      Regroup(a, b, tail.value);
    }
  }

  // ---------------------------------------------------------------------------
  // The regular expression that source denotes, and how the engine runs it

  datatype Item =
    | Char(c: char)
    | AnyText(captured: bool)
    | NoSep(sep: char, captured: bool)
  {
    predicate Allows(c: char) {
      AnyText? || (NoSep? && c != sep)
    }
  }

  /** Reads regular-expression source, up to the closing anchor, as a list of items. */
  function ReadItems(source: string): Option<seq<Item>> {
    if source == CLOSING then Some([])
    else if source == [] then None
    else if source[0] == '(' then
      var wild := ReadWildcard(source);
      if wild.None? then None else Cons(wild.value.0, ReadItems(wild.value.1))
    else
      var literal := ReadLiteral(source);
      if literal.None? then None else Cons(Char(literal.value.0), ReadItems(literal.value.1))
  }

  function Cons(item: Item, rest: Option<seq<Item>>): Option<seq<Item>> {
    if rest.None? then None else Some([item] + rest.value)
  }

  /** Reads one capturing or non-capturing group around a lazy repetition. */
  function ReadWildcard(source: string): (r: Option<(Item, string)>)
    requires source != []
    ensures r.Some? ==> |r.value.1| < |source|
  {
    if "(?:" <= source then ReadRepetition(source[3..], false) else ReadRepetition(source[1..], true)
  }

  function ReadRepetition(inner: string, captured: bool): (r: Option<(Item, string)>)
    ensures r.Some? ==> |r.value.1| < |inner|
  {
    if ".*?)" <= inner then Some((AnyText(captured), inner[4..]))
    else if !("[^" <= inner) then None
    else
      var sep := ReadLiteral(inner[2..]);
      if sep.None? || !("]*?)" <= sep.value.1) then None
      else Some((NoSep(sep.value.0, captured), sep.value.1[4..]))
  }

  /** Reads one literal character, escaped exactly if it must be. */
  function ReadLiteral(source: string): (r: Option<(char, string)>)
    ensures r.Some? ==> |r.value.1| < |source|
  {
    if source == [] then None
    else if source[0] == '\\' then
      if |source| > 1 && IsMeta(source[1]) then Some((source[1], source[2..])) else None
    else if IsMeta(source[0]) then None
    else Some((source[0], source[1..]))
  }

  /** The program denoted by a compiled source. */
  function Program(source: string): Option<seq<Item>> {
    if OPENING <= source then ReadItems(source[|OPENING|..]) else None
  }

  /**
   Runs a program against a whole text: the groups of the leftmost-first match,
   in which a lazy repetition takes the least that lets the rest match.
   */
  function Run(items: seq<Item>, text: string): Option<seq<string>>
    decreases |items|, |text| + 1
  {
    if items == [] then if text == [] then Some([]) else None
    else if items[0].Char? then
      if text != [] && text[0] == items[0].c then Run(items[1..], text[1..]) else None
    else RunFrom(items, text, 0)
  }

  function RunFrom(items: seq<Item>, text: string, k: nat): Option<seq<string>>
    requires items != [] && !items[0].Char? && k <= |text|
    decreases |items|, |text| - k
  {
    var rest := Run(items[1..], text[k..]);
    if rest.Some? then Some((if items[0].captured then [text[..k]] else []) + rest.value)
    else if k < |text| && items[0].Allows(text[k]) then RunFrom(items, text, k + 1)
    else None
  }

  function Groups(items: seq<Item>): nat {
    if items == [] then 0
    else (if !items[0].Char? && items[0].captured then 1 else 0) + Groups(items[1..])
  }

  // ---------------------------------------------------------------------------
  // Compilation preserves meaning

  function Items(pattern: string, sep: char, captures: nat): seq<Item> {
    if pattern == [] then []
    else if pattern[0] == '\\' then
      if |pattern| == 1 then [] else [Char(pattern[1])] + Items(pattern[2..], sep, captures)
    else if pattern[0] != '*' then [Char(pattern[0])] + Items(pattern[1..], sep, captures)
    else
      var captured := captures < MAX_CAPTURES;
      [if IsDouble(pattern) then AnyText(captured) else NoSep(sep, captured)]
      + Items(AfterWildcard(pattern), sep, if captured then captures + 1 else captures)
  }

  /** Escaping is right: the emitted source reads back as the intended program. */
  lemma {:induction false} BodyReadsBack(pattern: string, sep: char, captures: nat)
    ensures BodySource(pattern, sep, captures).None? <==> DanglingEscape(pattern)
    ensures BodySource(pattern, sep, captures).Some? ==>
      ReadItems(BodySource(pattern, sep, captures).value + CLOSING) == Some(Items(pattern, sep, captures))
    decreases |pattern|
  {
    if pattern == [] {
      assert [] + CLOSING == CLOSING;
    } else if pattern[0] == '\\' {
      if |pattern| > 1 {
        BodyReadsBack(pattern[2..], sep, captures);
        if BodySource(pattern, sep, captures).Some? {
          LiteralReadsBack(pattern[1], BodySource(pattern[2..], sep, captures).value);
        }
      }
    } else if pattern[0] != '*' {
      BodyReadsBack(pattern[1..], sep, captures);
      if BodySource(pattern, sep, captures).Some? {
        LiteralReadsBack(pattern[0], BodySource(pattern[1..], sep, captures).value);
      }
    } else {
      var captured := captures < MAX_CAPTURES;
      var next := if captured then captures + 1 else captures;
      BodyReadsBack(AfterWildcard(pattern), sep, next);
      DanglingAfterWildcard(pattern);
      if BodySource(pattern, sep, captures).Some? {
        WildcardReadsBack(IsDouble(pattern), sep, captured,
                          BodySource(AfterWildcard(pattern), sep, next).value + CLOSING);
        var rest := BodySource(AfterWildcard(pattern), sep, next).value;
        var head := WildcardSource(IsDouble(pattern), sep, captured);
        assert (head + rest) + CLOSING == head + (rest + CLOSING);
      }
    }
  }

  lemma DanglingAfterWildcard(pattern: string)
    requires pattern != [] && pattern[0] == '*'
    ensures DanglingEscape(pattern) == DanglingEscape(AfterWildcard(pattern))
  {
    if IsDouble(pattern) {
      assert pattern[1..][1..] == pattern[2..];
    }
  }

  lemma ReadsLiteral(c: char, rest: string)
    ensures ReadLiteral(LiteralSource(c) + rest) == Some((c, rest))
  {
    var source := LiteralSource(c) + rest;
    assert IsMeta('\\') by {
      assert "\\.+*?()|[]{}^$#&-~"[0] == '\\';
    }
    if IsMeta(c) {
      assert source[2..] == rest;
    } else {
      assert source[1..] == rest;
    }
  }

  lemma LiteralReadsBack(c: char, rest: string)
    ensures ReadItems((LiteralSource(c) + rest) + CLOSING) == Cons(Char(c), ReadItems(rest + CLOSING))
  {
    var source := LiteralSource(c) + (rest + CLOSING);
    Regroup(LiteralSource(c), rest, CLOSING);
    ReadsLiteral(c, rest + CLOSING);
    assert IsMeta('(') by {
      assert "\\.+*?()|[]{}^$#&-~"[5] == '(';
    }
    assert source[0] != '(';
    assert source != CLOSING;
  }

  lemma RepetitionReadsBack(double: bool, sep: char, captured: bool, rest: string)
    ensures ReadRepetition(Repetition(double, sep) + (")" + rest), captured)
         == Some((if double then AnyText(captured) else NoSep(sep, captured), rest))
  {
    if double {
      var inner := ".*?" + (")" + rest);
      assert inner == ".*?)" + rest;
      assert inner[4..] == rest;
    } else {
      var tail := "]*?" + (")" + rest);
      assert tail == "]*?)" + rest;
      assert tail[4..] == rest;
      var inner := "[^" + (LiteralSource(sep) + tail);
      assert Repetition(double, sep) + (")" + rest) == inner;
      assert inner[2..] == LiteralSource(sep) + tail;
      assert inner[0] == '[';
      ReadsLiteral(sep, tail);
    }
  }

  lemma OpeningReadsBack(captured: bool, inner: string)
    requires inner != [] && inner[0] != '?'
    ensures ReadWildcard((if captured then "(" else "(?:") + inner) == ReadRepetition(inner, captured)
  {
    var source := (if captured then "(" else "(?:") + inner;
    if captured {
      assert source[1] == inner[0];
      assert source[1..] == inner;
    } else {
      assert source[3..] == inner;
    }
  }

  lemma WildcardReadsBack(double: bool, sep: char, captured: bool, rest: string)
    ensures ReadItems(WildcardSource(double, sep, captured) + rest) ==
      Cons(if double then AnyText(captured) else NoSep(sep, captured), ReadItems(rest))
  {
    var open := if captured then "(" else "(?:";
    var inner := Repetition(double, sep) + (")" + rest);
    var source := open + inner;
    assert WildcardSource(double, sep, captured) + rest == source;
    assert inner[0] == if double then '.' else '[';
    assert source[0] == '(' && source != CLOSING;
    OpeningReadsBack(captured, inner);
    RepetitionReadsBack(double, sep, captured, rest);
  }

  /** The first nine captures; the other wildcards become groups without a number. */
  function Numbered(texts: Option<seq<string>>, captures: nat): Option<seq<string>> {
    if texts.Some? && captures <= MAX_CAPTURES && |texts.value| > MAX_CAPTURES - captures
    then Some(texts.value[..MAX_CAPTURES - captures]) else texts
  }

  lemma {:induction false} RunIsCapture(pattern: string, sep: char, captures: nat, text: string)
    requires captures <= MAX_CAPTURES && !DanglingEscape(pattern)
    ensures Run(Items(pattern, sep, captures), text) == Numbered(Capture(pattern, sep, text), captures)
    decreases |pattern|, |text| + 1
  {
    if pattern == [] {
    } else if pattern[0] == '\\' {
      if text != [] {
        RunIsCapture(pattern[2..], sep, captures, text[1..]);
      }
    } else if pattern[0] != '*' {
      if text != [] {
        RunIsCapture(pattern[1..], sep, captures, text[1..]);
      }
    } else {
      RunFromIsCapture(pattern, sep, captures, text, 0);
    }
  }

  lemma {:induction false} RunFromIsCapture(pattern: string, sep: char, captures: nat, text: string, k: nat)
    requires captures <= MAX_CAPTURES && !DanglingEscape(pattern)
    requires pattern != [] && pattern[0] == '*' && k <= |text|
    ensures RunFrom(Items(pattern, sep, captures), text, k) ==
      Numbered(CaptureFrom(pattern, sep, text, k), captures)
    decreases |pattern|, |text| - k
  {
    var items := Items(pattern, sep, captures);
    var next := if captures < MAX_CAPTURES then captures + 1 else captures;
    DanglingAfterWildcard(pattern);
    assert items[1..] == Items(AfterWildcard(pattern), sep, next);
    RunIsCapture(AfterWildcard(pattern), sep, next, text[k..]);
    var rest := Capture(AfterWildcard(pattern), sep, text[k..]);
    if rest.Some? {
      var all := [text[..k]] + rest.value;
      if captures < MAX_CAPTURES && |all| > MAX_CAPTURES - captures {
        assert all[..MAX_CAPTURES - captures] == [text[..k]] + rest.value[..MAX_CAPTURES - next];
      } else if captures == MAX_CAPTURES {
        var none: seq<string> := [];
        assert none + Numbered(rest, next).value == none == all[..0];
      }
    } else if k < |text| && (IsDouble(pattern) || text[k] != sep) {
      RunFromIsCapture(pattern, sep, captures, text, k + 1);
    }
  }

  lemma {:induction false} GroupsOfItems(pattern: string, sep: char, captures: nat)
    requires captures <= MAX_CAPTURES && !DanglingEscape(pattern)
    ensures Groups(Items(pattern, sep, captures)) ==
      if Wildcards(pattern) <= MAX_CAPTURES - captures then Wildcards(pattern) else MAX_CAPTURES - captures
    decreases |pattern|
  {
    if pattern == [] {
    } else if pattern[0] == '\\' {
      GroupsOfItems(pattern[2..], sep, captures);
    } else if pattern[0] != '*' {
      GroupsOfItems(pattern[1..], sep, captures);
    } else {
      DanglingAfterWildcard(pattern);
      GroupsOfItems(AfterWildcard(pattern), sep, if captures < MAX_CAPTURES then captures + 1 else captures);
    }
  }

  /** Runs the program of a compiled pattern. */
  function RunCompiled(source: string, text: string): Option<seq<string>> {
    var program := Program(source);
    if program.None? then None else Run(program.value, text)
  }

  /**
   Compilation fails exactly on a dangling escape. Otherwise the compiled program
   accepts exactly the texts of the glob, has one group per wildcard up to nine,
   and its groups are what the glob's first nine wildcards stand for.
   */
  lemma CompilationPreservesMeaning(pattern: string, sep: char, text: string)
    ensures Source(pattern, sep).None? <==> DanglingEscape(pattern)
    ensures !DanglingEscape(pattern) ==>
      var source := Source(pattern, sep).value;
      && Program(source).Some?
      && Groups(Program(source).value) ==
           (if Wildcards(pattern) <= MAX_CAPTURES then Wildcards(pattern) else MAX_CAPTURES)
      && (RunCompiled(source, text).Some? <==> Accepts(pattern, sep, text))
      && RunCompiled(source, text) == Numbered(Capture(pattern, sep, text), 0)
  {
    BodyReadsBack(pattern, sep, 0);
    if !DanglingEscape(pattern) {
      var body := BodySource(pattern, sep, 0).value;
      var source := OPENING + body + CLOSING;
      assert source[|OPENING|..] == body + CLOSING;
      RunIsCapture(pattern, sep, 0, text);
      GroupsOfItems(pattern, sep, 0);
      CaptureIsComplete(pattern, sep, text);
    }
  }

  // ---------------------------------------------------------------------------
  // Patterns that accept every text

  /** Two or more stars and nothing else. */
  predicate AcceptsEverything(pattern: string) {
    |pattern| >= 2 && forall i :: 0 <= i < |pattern| ==> pattern[i] == '*'
  }

  lemma {:induction false} AcceptsEmptyText(pattern: string, sep: char)
    ensures Accepts(pattern, sep, []) <==> forall i :: 0 <= i < |pattern| ==> pattern[i] == '*'
    decreases |pattern|
  {
    if pattern != [] && pattern[0] == '*' {
      var rest := AfterWildcard(pattern);
      AcceptsEmptyText(rest, sep);
      assert forall k | 0 <= k <= |""| :: ""[k..] == [];
      assert Accepts(rest, sep, []) ==> Accepts(rest, sep, ""[0..]) && sep !in ""[..0];
      assert Accepts(pattern, sep, []) <==> Accepts(rest, sep, []);
      assert forall i :: 0 <= i < |rest| ==> rest[i] == pattern[i + |pattern| - |rest|];
      assert forall i :: |pattern| - |rest| <= i < |pattern| ==> pattern[i] == rest[i - (|pattern| - |rest|)];
    }
  }

  /** A pattern accepts every text exactly when it is two or more stars. */
  lemma AcceptsEverythingIsExact(pattern: string, sep: char)
    ensures AcceptsEverything(pattern) ==> forall text :: Accepts(pattern, sep, text)
    ensures !AcceptsEverything(pattern) ==> exists text | text in {"", "a", [sep]} :: !Accepts(pattern, sep, text)
  {
    AcceptsEmptyText(pattern, sep);
    if AcceptsEverything(pattern) {
      forall text
        ensures Accepts(pattern, sep, text)
      {
        AcceptsEmptyText(pattern[2..], sep);
        assert text[|text|..] == [];
        assert Accepts(pattern[2..], sep, text[|text|..]);
      }
    } else if pattern == [] {
      assert !Accepts(pattern, sep, "a");
    } else if pattern == "*" {
      var text := [sep];
      forall k | 0 <= k <= 1
        ensures !(sep !in text[..k] && Accepts(pattern[1..], sep, text[k..]))
      {
        assert k == 1 ==> text[..k][0] == sep;
      }
      assert !Accepts(pattern, sep, text);
    } else {
      assert !Accepts(pattern, sep, "");
    }
  }
}
