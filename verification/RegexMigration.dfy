/**
 Which regular expressions migration leaves alone, and inputs at which it does not.
 */
module RegexMigration {
  import opened Text
  import opened Spelling
  import opened Migration

  // ---------------------------------------------------------------------------
  // Where the scan stops

  /** An unescaped slash outside a class, with a boundary behind it. */
  predicate EndsAt(text: string, escaped: bool, inClass: bool, k: nat) {
    && k < |text| && text[k] == '/' && IsBoundary(text[k + 1..])
    && !EscapedAfter(text[..k], escaped) && !InClassAfter(text[..k], escaped, inClass)
  }

  lemma EndsInRest(text: string, escaped: bool, inClass: bool, k: nat)
    requires 0 < k < |text|
    ensures EndsAt(text, escaped, inClass, k) <==>
      EndsAt(text[1..], NextEscaped(text[0], escaped), NextInClass(text[0], escaped, inClass), k - 1)
  {
    assert text[..k][1..] == text[1..][..k - 1];
    assert text[1..][k..] == text[k + 1..];
  }

  /** Where the scan stops, it may stop. */
  lemma {:induction false} RegexEndIsEnd(text: string, escaped: bool, inClass: bool)
    ensures var end := RegexEnd(text, escaped, inClass); end.Some? ==> EndsAt(text, escaped, inClass, end.value)
    decreases |text|
  {
    var end := RegexEnd(text, escaped, inClass);
    if end.Some? {
      assert text[..0] == [];
      if end.value > 0 {
        RegexEndIsEnd(text[1..], NextEscaped(text[0], escaped), NextInClass(text[0], escaped, inClass));
        EndsInRest(text, escaped, inClass, end.value);
      }
    }
  }

  /** The scan does not go past a place where it may stop. */
  lemma {:induction false} RegexEndIsFirst(text: string, escaped: bool, inClass: bool, k: nat)
    requires EndsAt(text, escaped, inClass, k)
    ensures var end := RegexEnd(text, escaped, inClass); end.Some? && end.value <= k
    decreases |text|
  {
    assert text[..0] == [];
    if k > 0 {
      EndsInRest(text, escaped, inClass, k);
      RegexEndIsFirst(text[1..], NextEscaped(text[0], escaped), NextInClass(text[0], escaped, inClass), k - 1);
    }
  }

  /** The scan stops at `n` exactly if it may stop there and nowhere before. */
  lemma RegexEndIs(text: string, n: nat)
    ensures RegexEnd(text, false, false) == Some(n) <==>
      EndsAt(text, false, false, n) && forall k: nat :: k < n ==> !EndsAt(text, false, false, k)
  {
    RegexEndIsEnd(text, false, false);
    if EndsAt(text, false, false, n) {
      RegexEndIsFirst(text, false, false, n);
    }
    forall k: nat | k < n && EndsAt(text, false, false, k)
      ensures RegexEnd(text, false, false) != Some(n)
    {
      RegexEndIsFirst(text, false, false, k);
    }
  }

  // ---------------------------------------------------------------------------
  // Literals

  /** A literal can open here: outside quotes, not escaped, behind an opening character. */
  predicate Opening(s: State) {
    !s.escaped && s.quote.None? && OpensRegex(s.last)
  }

  /** A slash inside the body that the scan takes for the end. */
  predicate EndsInside(body: string) {
    exists k: nat | k + 1 < |body| :: EndsAt(body, false, false, k)
  }

  /** What a place in the body, or behind it, looks like with more text behind it. */
  lemma BodySlices(body: string, more: string, k: nat)
    requires k <= |body|
    ensures
      var text := body + "/" + more;
      && text[..k] == body[..k] && text[k] == (if k < |body| then body[k] else '/')
      && (k == |body| ==> text[k + 1..] == more && body[..k] == body)
      && (k < |body| ==> (IsBoundary(text[k + 1..]) <==> k + 1 < |body| && IsBoundary(body[k + 1..])))
  {
    var text := body + "/" + more;
    if k == |body| {
      assert text[k + 1..] == more;
    } else {
      assert text[k + 1..][0] == if k + 1 < |body| then body[k + 1] else '/';
    }
  }

  lemma BodyEnds(body: string, more: string, k: nat)
    requires k <= |body|
    ensures EndsAt(body + "/" + more, false, false, k) <==>
      if k == |body| then IsBoundary(more) && !EscapedAfter(body, false) && !InClassAfter(body, false, false)
      else k + 1 < |body| && EndsAt(body, false, false, k)
  {
    BodySlices(body, more, k);
  }

  lemma ScanStopsAfterBody(body: string, more: string)
    ensures RegexEnd(body + "/" + more, false, false) == Some(|body|) <==>
      && IsBoundary(more) && !EscapedAfter(body, false) && !InClassAfter(body, false, false)
      && !EndsInside(body)
  {
    var text := body + "/" + more;
    RegexEndIs(text, |body|);
    BodyEnds(body, more, |body|);
    forall k: nat | k < |body|
      ensures EndsAt(text, false, false, k) <==> k + 1 < |body| && EndsAt(body, false, false, k)
    {
      BodyEnds(body, more, k);
    }
  }

  lemma SlashToken(s: State, text: string)
    requires Opening(s)
    ensures var end := RegexEnd(text, false, false);
      FirstToken(s, "/" + text)
      == if end.None? then Verbatim(Other, "/") else Verbatim(RegexLiteral, "/" + text[..end.value + 1])
  {
    var line := "/" + text;
    assert line[1..] == text;
    var end := RegexEnd(text, false, false);
    if end.Some? {
      assert line[..end.value + 2] == "/" + text[..end.value + 1];
    }
  }

  lemma SameFront(text: string, n: nat, m: nat)
    requires n < |text| && m < |text|
    ensures "/" + text[..n + 1] == "/" + text[..m + 1] <==> n == m
  {
    assert |"/" + text[..n + 1]| == n + 2 && |"/" + text[..m + 1]| == m + 2;
  }

  /**
   Whatever comes behind it, `/body/` is read as one regex exactly if a boundary follows,
   the body leaves no class open, and no slash inside it looks like the end.
   */
  lemma LiteralIsOneToken(s: State, body: string, more: string)
    requires Opening(s) && !EscapedAfter(body, false)
    ensures FirstToken(s, "/" + (body + "/" + more)) == Verbatim(RegexLiteral, "/" + (body + "/")) <==>
      IsBoundary(more) && !InClassAfter(body, false, false) && !EndsInside(body)
  {
    var text := body + "/" + more;
    assert text[..|body| + 1] == body + "/";
    SlashToken(s, text);
    ScanStopsAfterBody(body, more);
    if RegexEnd(text, false, false).Some? {
      SameFront(text, RegexEnd(text, false, false).value, |body|);
    }
  }

  // ---------------------------------------------------------------------------
  // The literals of the rule parser

  predicate UnescapedSlash(input: string, i: int) {
    0 < i < |input| && input[i] == '/' && !EscapedAfter(input[1..i], false)
  }

  lemma {:induction false} EscapedAfterNext(text: string, c: char, escaped: bool)
    ensures EscapedAfter(text + [c], escaped) == NextEscaped(c, EscapedAfter(text, escaped))
    decreases |text|
  {
    if text == [] {
      assert text + [c] == [c] && [c][1..] == [];
    } else {
      assert (text + [c])[1..] == text[1..] + [c];
      EscapedAfterNext(text[1..], c, NextEscaped(text[0], escaped));
    }
  }

  /** The parser ends a literal at the last unescaped slash; classes do not matter to it. */
  method RegexLiteralEnd(input: string) returns (end: Option<nat>)
    ensures end.Some? ==> UnescapedSlash(input, end.value) && forall i :: i > end.value ==> !UnescapedSlash(input, i)
    ensures end.None? ==> forall i :: !UnescapedSlash(input, i)
  {
    var escaped := false;
    end := None;
    if |input| < 2 {
      return;
    }
    assert input[1..1] == [];
    for i := 1 to |input|
      invariant escaped == EscapedAfter(input[1..i], false)
      invariant end.Some? ==> UnescapedSlash(input, end.value) && end.value < i
      invariant forall j :: (if end.Some? then end.value else 0) < j < i ==> !UnescapedSlash(input, j)
    {
      EscapedAfterNext(input[1..i], input[i], false);
      assert input[1..i + 1] == input[1..i] + [input[i]];
      if escaped {
        escaped := false;
      } else if input[i] == '\\' {
        escaped := true;
      } else if input[i] == '/' {
        end := Some(i);
      }
    }
  }

  /** The parser reads the input as a regex whose body ends before `end`; what follows are flags. */
  predicate IsRegex(input: string, end: nat) {
    && UnescapedSlash(input, end) && input[0] == '/'
    && forall i :: end < i < |input| ==> input[i] == 'i'
  }

  /**
   A regex that the parser reads, with a boundary behind it, is read as one regex by
   migration exactly if it has no flags, leaves no class open and holds no slash that
   looks like its end.
   */
  lemma RegexIsOneToken(s: State, input: string, end: nat, after: string)
    requires Opening(s) && IsRegex(input, end) && IsBoundary(after)
    ensures var body := input[1..end];
      FirstToken(s, input + after) == Verbatim(RegexLiteral, input) <==>
      end == |input| - 1 && !InClassAfter(body, false, false) && !EndsInside(body)
  {
    var body, flags := input[1..end], input[end + 1..];
    if flags == [] {
      assert input == "/" + (body + "/");
      assert input + after == "/" + (body + "/" + after);
      LiteralIsOneToken(s, body, after);
    } else {
      TokenEndsWithSlash(s, input + after);
      assert input[|input| - 1] == 'i';
    }
  }

  lemma TokenEndsWithSlash(s: State, rest: string)
    requires rest != []
    ensures var t := FirstToken(s, rest); t.Verbatim? && t.kind == RegexLiteral ==> t.text[|t.text| - 1] == '/'
  {
    var t := FirstToken(s, rest);
    if t.Verbatim? && t.kind == RegexLiteral {
      RegexEndIsSlash(rest[1..], false, false);
    }
  }

  /** A regex that is read as one is copied, and the rest of the line is rewritten behind it. */
  lemma RegexIsCopied(names: Names, s: State, input: string, after: string)
    requires Opening(s) && input != [] && FirstToken(s, input + after) == Verbatim(RegexLiteral, input)
    ensures Rewritten(names, s, input + after) == input + Rewritten(names, State(Some('/'), None, false), after)
  {
    Split(input, after);
    TokenEndsWithSlash(s, input + after);
    RegexStart(s, input + after);
    assert NextState(s, input + after) == State(Some('/'), None, false) by {
      assert (input + after)[|input| - 1] == '/';
    }
    RewrittenBy(names, s, input + after, input, State(Some('/'), None, false), after);
  }

  lemma RegexStart(s: State, rest: string)
    requires rest != [] && FirstToken(s, rest).Verbatim? && FirstToken(s, rest).kind == RegexLiteral
    ensures rest[0] == '/' && s.quote.None? && !s.escaped
  {
  }

  // ---------------------------------------------------------------------------
  // Lines that stay as they are

  /** The token is a call name that is spelled otherwise in canonical form. */
  predicate IsAlias(names: Names, t: Token) {
    t.Word? && t.call && names(t.name) != t.name
  }

  predicate HasNoAlias(names: Names, tokens: seq<Token>) {
    forall k :: 0 <= k < |tokens| ==> !IsAlias(names, tokens[k])
  }

  lemma {:induction false} NoAliasesStay(names: Names, tokens: seq<Token>)
    requires HasNoAlias(names, tokens)
    ensures Canonical(names, tokens) == tokens
    decreases |tokens|
  {
    if tokens != [] {
      NoAliasesStay(names, tokens[1..]);
    }
  }

  lemma StayingHasNoAlias(names: Names, tokens: seq<Token>)
    requires Canonical(names, tokens) == tokens
    ensures HasNoAlias(names, tokens)
  {
    forall k | 0 <= k < |tokens|
      ensures !IsAlias(names, tokens[k])
    {
      OnlyCallNamesChange(names, tokens, k);
    }
  }

  /** A line is left as it is exactly if no call name in it is an alias. */
  lemma UnchangedExactly(names: Names, line: string)
    requires SpellsNames(names)
    ensures Rewritten(names, START, line) == line <==> HasNoAlias(names, Lex(START, line))
  {
    if Rewritten(names, START, line) == line {
      RereadingIsCanonical(names, START, START, line);
      StayingHasNoAlias(names, Lex(START, line));
    }
    if HasNoAlias(names, Lex(START, line)) {
      NoAliasesStay(names, Lex(START, line));
      LexIsLossless(START, line);
    }
  }

  // ---------------------------------------------------------------------------
  // Quoted values

  /** Read inside quotes `d`, the text does not end them and leaves nothing escaped. */
  predicate StaysQuoted(text: string, d: char, escaped: bool) {
    if text == [] then !escaped
    else (escaped || text[0] != d) && StaysQuoted(text[1..], d, NextEscaped(text[0], escaped))
  }

  predicate IsQuote(c: char) {
    c == '\'' || c == '"'
  }

  /** The state after one character inside quotes `d`. */
  function AfterQuoted(last: Option<char>, d: char, escaped: bool, c: char): State {
    State(if IsWhitespace(c) then last else Some(c), if c == d && !escaped then None else Some(d),
          NextEscaped(c, escaped))
  }

  lemma QuotedStep(names: Names, last: Option<char>, d: char, escaped: bool, c: char, more: string)
    requires IsQuote(d)
    ensures Rewritten(names, State(last, Some(d), escaped), [c] + more)
         == [c] + Rewritten(names, AfterQuoted(last, d, escaped, c), more)
  {
    var s, rest := State(last, Some(d), escaped), [c] + more;
    RewrittenStep(names, s, rest);
    assert rest[1..] == more;
    assert NextState(s, rest) == AfterQuoted(last, d, escaped, c);
  }

  lemma {:induction false} QuotedTextIsCopied(names: Names, last: Option<char>, d: char, escaped: bool, text: string,
                                              after: string)
    requires IsQuote(d) && StaysQuoted(text, d, escaped)
    ensures Rewritten(names, State(last, Some(d), escaped), text + ([d] + after))
         == text + ([d] + Rewritten(names, State(Some(d), None, false), after))
    decreases |text|
  {
    if |text| == 0 {
      QuotedStep(names, last, d, escaped, d, after);
      Nothing([d] + after, [d] + Rewritten(names, State(Some(d), None, false), after));
    } else {
      var c, more := text[0], text[1..];
      QuotedStep(names, last, d, escaped, c, more + ([d] + after));
      QuotedTextIsCopied(names, AfterQuoted(last, d, escaped, c).last, d, NextEscaped(c, escaped), more, after);
      assert text == [c] + more;
      Regroup([c], more, [d] + after);
      Regroup([c], more, [d] + Rewritten(names, State(Some(d), None, false), after));
    }
  }

  lemma Nothing(a: string, b: string)
    ensures [] + a == a && [] + b == b
  {
  }

  /** A quoted value is copied, and the rest of the line is rewritten behind it. */
  lemma QuotedValueIsCopied(names: Names, s: State, d: char, text: string, after: string)
    requires IsQuote(d) && StaysQuoted(text, d, false) && !s.escaped && s.quote.None?
    ensures Rewritten(names, s, [d] + (text + ([d] + after)))
         == [d] + (text + ([d] + Rewritten(names, State(Some(d), None, false), after)))
  {
    var rest := [d] + (text + ([d] + after));
    RewrittenStep(names, s, rest);
    assert rest[1..] == text + ([d] + after);
    QuotedTextIsCopied(names, Some(d), d, false, text, after);
  }

  // ---------------------------------------------------------------------------
  // Inputs at which the promise fails

  /** A character outside quotes that begins no regex and no name. */
  lemma PlainStep(names: Names, last: Option<char>, c: char, more: string)
    requires c != '\\' && !IsQuote(c) && c != '#' && !IsAsciiAlphabetic(c)
    requires c == '/' && OpensRegex(last) ==> RegexEnd(more, false, false).None?
    ensures Rewritten(names, State(last, None, false), [c] + more)
         == [c] + Rewritten(names, State(if IsWhitespace(c) then last else Some(c), None, false), more)
  {
    var s, rest := State(last, None, false), [c] + more;
    assert rest[1..] == more;
    RewrittenStep(names, s, rest);
    assert FirstToken(s, rest) == Verbatim(Other, [c]);
  }

  lemma NameIsSolid(s: State, name: string, more: string)
    requires IsName(name) && !s.escaped && s.quote.None? && FirstToken(s, name + more) == Word(name, "(" <= more)
    ensures NextState(s, name + more) == State(Some(name[|name| - 1]), None, false)
  {
    assert (name + more)[|name| - 1] == name[|name| - 1];
    assert IsNameChar(name[|name| - 1]) && !IsWhitespace(name[|name| - 1]);
  }

  /** A name outside quotes. */
  lemma NameStep(names: Names, last: Option<char>, name: string, more: string)
    requires IsName(name) && (more != [] ==> !IsNameChar(more[0]))
    ensures Rewritten(names, State(last, None, false), name + more)
         == (if "(" <= more then names(name) else name)
            + Rewritten(names, State(Some(name[|name| - 1]), None, false), more)
  {
    var s := State(last, None, false);
    NameIsRead(name, more, s);
    Split(name, more);
    NameIsSolid(s, name, more);
    RewrittenBy(names, s, name + more, if "(" <= more then names(name) else name,
                State(Some(name[|name| - 1]), None, false), more);
  }

  /** A call name and its parenthesis. */
  lemma CallStep(names: Names, last: Option<char>, name: string, more: string)
    requires IsName(name)
    ensures Rewritten(names, State(last, None, false), name + ("(" + more))
         == names(name) + ("(" + Rewritten(names, State(Some('('), None, false), more))
  {
    NameStep(names, last, name, "(" + more);
    PlainStep(names, Some(name[|name| - 1]), '(', more);
  }

  /** When a regex at the start of a line does not end for the scan, a call name it begins with is rewritten. */
  lemma UnendedRegexIsRewritten(names: Names, name: string, more: string)
    requires IsName(name) && RegexEnd(name + ("(" + more), false, false).None?
    ensures Rewritten(names, START, "/" + (name + ("(" + more)))
         == "/" + (names(name) + ("(" + Rewritten(names, State(Some('('), None, false), more)))
  {
    PlainStep(names, None, '/', name + ("(" + more));
    CallStep(names, Some('/'), name, more);
  }

  /** An argument that is not quoted is rewritten like the call it stands in. */
  lemma ArgumentIsRewritten(names: Names, call: string, name: string, more: string)
    requires IsName(call) && IsName(name)
    ensures Rewritten(names, START, call + ("(" + (name + ("(" + more))))
         == names(call) + ("(" + (names(name) + ("(" + Rewritten(names, State(Some('('), None, false), more))))
  {
    CallStep(names, None, call, name + ("(" + more));
    CallStep(names, Some('('), name, more);
  }

  lemma {:induction false} NoBackslashes(text: string)
    requires '\\' !in text
    ensures !EscapedAfter(text, false)
    decreases |text|
  {
    if text != [] {
      NoBackslashes(text[1..]);
    }
  }

  lemma {:induction false} NoBrackets(text: string, escaped: bool)
    requires '[' !in text
    ensures !InClassAfter(text, escaped, false)
    decreases |text|
  {
    if text != [] {
      NoBrackets(text[1..], NextEscaped(text[0], escaped));
    }
  }

  lemma StartsWith(front: string, out: string)
    ensures front <= front + out
  {
  }

  lemma CallInRegex(names: Names, name: string, spelled: string, more: string, line: string)
    requires IsName(name) && names(name) == spelled && line == "/" + (name + ("(" + more))
    requires RegexEnd(name + ("(" + more), false, false).None?
    ensures "/" + (spelled + "(") <= Rewritten(names, START, line)
  {
    UnendedRegexIsRewritten(names, name, more);
    var out := Rewritten(names, State(Some('('), None, false), more);
    Regroup(spelled, "(", out);
    Regroup("/", spelled + "(", out);
    StartsWith("/" + (spelled + "("), out);
  }

  lemma FlaggedRegexHasNoEnd(text: string)
    requires text == "ip(x)/i host(y)"
    ensures RegexEnd(text, false, false).None?
  {
    RegexEndIsEnd(text, false, false);
    assert forall k :: 0 <= k < |text| && text[k] == '/' ==> k == 5;
    assert text[6] == 'i';
  }

  lemma ExampleNames()
    ensures IsName("ip") && IsName("mock") && IsName("redirect") && IsName("a.test")
  {
  }

  lemma FlaggedLine(line: string)
    requires line == "/ip(x)/i host(y)"
    ensures line == "/" + ("ip" + ("(" + line[4..])) && line[1..] == "ip" + ("(" + line[4..])
    ensures line[1..] == "ip(x)/i host(y)" && "/" + ("client.ip" + "(") == "/client.ip("
  {
  }

  lemma FlaggedRegex(input: string)
    requires input == "/ip(x)/i"
    ensures IsRegex(input, 6)
  {
    assert forall i :: 0 <= i < |input| ==> input[i] != '\\';
    NoBackslashes(input[1..6]);
  }

  /** The parser reads `/ip(x)/i` as a regex, and migration rewrites its body. */
  lemma FlaggedRegexIsRewritten(line: string)
    requires line == "/ip(x)/i host(y)"
    ensures IsRegex(line[..8], 6) && "/client.ip(" <= Rewritten(CanonicalCallName, START, line)
  {
    FlaggedLine(line);
    assert line[..8] == "/ip(x)/i";
    FlaggedRegex(line[..8]);
    FlaggedRegexHasNoEnd(line[1..]);
    ExampleNames();
    IpIsAnAlias();
    CallInRegex(CanonicalCallName, "ip", "client.ip", line[4..], line);
  }

  lemma BetweenSlashes(names: Names, s: State, body: string, rest: string)
    requires Opening(s) && '\\' !in body && '[' !in body && '/' !in body && rest == "/" + (body + "/") + ")"
    ensures Rewritten(names, s, rest) == rest
  {
    NoBackslashes(body);
    NoBrackets(body, false);
    LiteralIsOneToken(s, body, ")");
    assert "/" + (body + "/" + ")") == rest;
    RegexIsCopied(names, s, "/" + (body + "/"), ")");
    LastStep(names, Some('/'));
  }

  lemma LastStep(names: Names, last: Option<char>)
    ensures Rewritten(names, State(last, None, false), ")") == ")"
  {
    var none := "";
    PlainStep(names, last, ')', none);
    assert ")" + none == ")";
  }

  lemma CallBehindWord(names: Names, word: string, call: string, rest: string, line: string)
    requires IsName(word) && IsName(call) && names(call) == call && line == word + (" " + (call + ("(" + rest)))
    requires Rewritten(names, State(Some('('), None, false), rest) == rest
    ensures Rewritten(names, START, line) == line
  {
    var last := Some(word[|word| - 1]);
    NameStep(names, None, word, " " + (call + ("(" + rest)));
    PlainStep(names, last, ' ', call + ("(" + rest));
    CallStep(names, last, call, rest);
  }

  lemma SlashesLine(body: string)
    requires body == "a) mapRemote(b"
    ensures "a.test" + (" " + ("redirect" + ("(" + ("/" + (body + "/") + ")")))) == "a.test redirect(/a) mapRemote(b/)"
    ensures '\\' !in body && '[' !in body && '/' !in body
  {
  }

  /** In `a.test redirect(/a) mapRemote(b/)` the scan takes a call for part of a regex, and the alias stays. */
  lemma AliasBetweenSlashesStays(line: string)
    requires line == "a.test redirect(/a) mapRemote(b/)"
    ensures Rewritten(CanonicalCallName, START, line) == line && CanonicalCallName("mapRemote") == "map.remote"
  {
    var body := "a) mapRemote(b";
    SlashesLine(body);
    ExampleNames();
    MapRemoteIsAnAlias();
    CanonicalStays("redirect");
    var rest := "/" + (body + "/") + ")";
    BetweenSlashes(CanonicalCallName, State(Some('('), None, false), body, rest);
    CallBehindWord(CanonicalCallName, "a.test", "redirect", rest, line);
  }

  lemma CallInCall(names: Names, call: string, name: string, spelled: string, more: string, line: string)
    requires IsName(call) && names(call) == call && IsName(name) && names(name) == spelled
    requires line == call + ("(" + (name + ("(" + more)))
    ensures call + ("(" + (spelled + "(")) <= Rewritten(names, START, line)
  {
    ArgumentIsRewritten(names, call, name, more);
    var out := Rewritten(names, State(Some('('), None, false), more);
    Regroup(spelled, "(", out);
    Regroup("(", spelled + "(", out);
    Regroup(call, "(" + (spelled + "("), out);
    StartsWith(call + ("(" + (spelled + "(")), out);
  }

  lemma MockLine(line: string)
    requires line == "mock(ip(1))"
    ensures line == "mock" + ("(" + ("ip" + ("(" + line[8..])))
    ensures "mock" + ("(" + ("client.ip" + "(")) == "mock(client.ip("
  {
  }

  /** The body in `mock(ip(1))` is rewritten, because it is not quoted. */
  lemma UnquotedValueIsRewritten(line: string)
    requires line == "mock(ip(1))"
    ensures "mock(client.ip(" <= Rewritten(CanonicalCallName, START, line)
  {
    MockLine(line);
    ExampleNames();
    CanonicalStays("mock");
    IpIsAnAlias();
    CallInCall(CanonicalCallName, "mock", "ip", "client.ip", line[8..], line);
  }
}
