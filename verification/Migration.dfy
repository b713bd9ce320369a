/**
 Migration of one source line to canonical call names: what is rewritten, what is
 copied, and the proof that migrating twice is migrating once.
 */
module Migration {
  import opened Text
  import opened Spelling

  // ---------------------------------------------------------------------------
  // Recognising regex literals

  predicate IsBoundary(rest: string) {
    rest == [] || IsWhitespace(rest[0]) || rest[0] == ',' || rest[0] == ')'
  }

  function Later(end: Option<nat>): Option<nat> {
    if end.None? then None else Some(end.value + 1)
  }

  predicate NextEscaped(c: char, escaped: bool) {
    !escaped && c == '\\'
  }

  predicate NextInClass(c: char, escaped: bool, inClass: bool) {
    if escaped || c == '\\' then inClass else c == '[' || (c != ']' && inClass)
  }

  /** Position of the slash that ends a regex, for text after its opening slash. */
  function RegexEnd(text: string, escaped: bool, inClass: bool): (end: Option<nat>)
    ensures end.Some? ==> end.value < |text|
  {
    if text == [] then None
    else if text[0] == '/' && !escaped && !inClass && IsBoundary(text[1..]) then Some(0)
    else Later(RegexEnd(text[1..], NextEscaped(text[0], escaped), NextInClass(text[0], escaped, inClass)))
  }

  method RegexEndAtBoundary(line: string, start: nat) returns (end: Option<nat>)
    requires start < |line|
    ensures var found := RegexEnd(line[start + 1..], false, false);
      end == if found.None? then None else Some(start + 1 + found.value)
  {
    ghost var text := line[start + 1..];
    var escaped, inClass := false, false;
    var i := start + 1;
    while i < |line|
      invariant start < i <= |line|
      invariant RegexEnd(text, false, false) == Shifted(RegexEnd(line[i..], escaped, inClass), i - start - 1)
    {
      ghost var rest := line[i..];
      assert rest[1..] == line[i + 1..];
      var c := line[i];
      if escaped {
        escaped := false;
      } else if c == '\\' {
        escaped := true;
      } else if c == '[' {
        inClass := true;
      } else if c == ']' && inClass {
        inClass := false;
      } else if c == '/' && !inClass {
        if i + 1 == |line| || IsWhitespace(line[i + 1]) || line[i + 1] == ',' || line[i + 1] == ')' {
          return Some(i);
        }
      }
      i := i + 1;
    }
    return None;
  }

  function Shifted(end: Option<nat>, n: nat): Option<nat> {
    if end.None? then None else Some(end.value + n)
  }

  /** The last character that is not white space. */
  function LastSolid(text: string): Option<char> {
    if text == [] then None
    else if !IsWhitespace(text[|text| - 1]) then Some(text[|text| - 1])
    else LastSolid(text[..|text| - 1])
  }

  predicate OpensRegex(last: Option<char>) {
    last.None? || last.value == '(' || last.value == ',' || last.value == '=' || last.value == '~' || last.value == '!'
  }

  // ---------------------------------------------------------------------------
  // The structure of a line

  datatype Kind = Escape | Quote | Comment | RegexLiteral | Other

  /** Text copied as it is, or a word, which is a call name when a parenthesis follows. */
  datatype Token = Verbatim(kind: Kind, text: string) | Word(name: string, call: bool)

  predicate IsNameChar(c: char) {
    IsAsciiAlphanumeric(c) || c == '.' || c == '_' || c == '-'
  }

  function NameLength(text: string): (n: nat)
    ensures n <= |text|
    ensures forall i :: 0 <= i < n ==> IsNameChar(text[i])
    ensures n < |text| ==> !IsNameChar(text[n])
  {
    if text == [] || !IsNameChar(text[0]) then 0 else 1 + NameLength(text[1..])
  }

  predicate StartsRegex(last: Option<char>, rest: string) {
    rest != [] && rest[0] == '/' && OpensRegex(last) && RegexEnd(rest[1..], false, false).Some?
  }

  /** Length of the regex literal at the start of `rest`, slashes included. */
  function RegexLength(rest: string): (n: nat)
    requires rest != [] && RegexEnd(rest[1..], false, false).Some?
    ensures 2 <= n <= |rest|
  {
    RegexEnd(rest[1..], false, false).value + 2
  }

  function TokenText(t: Token): string {
    match t
    case Verbatim(_, text) => text
    case Word(name, _) => name
  }

  /** Where reading stands: the last solid character so far, and the quoting state. */
  datatype State = State(last: Option<char>, quote: Option<char>, escaped: bool)

  const START := State(None, None, false)

  /** The token at the start of text outside quotes, escapes and comments. */
  function PlainToken(last: Option<char>, rest: string): (t: Token)
    requires rest != []
    ensures 0 < |TokenText(t)| <= |rest| && TokenText(t) == rest[..|TokenText(t)|]
  {
    if StartsRegex(last, rest) then Verbatim(RegexLiteral, rest[..RegexLength(rest)])
    else if IsAsciiAlphabetic(rest[0]) then
      var n := NameLength(rest);
      assert n > 0;
      Word(rest[..n], "(" <= rest[n..])
    else Verbatim(Other, [rest[0]])
  }

  function FirstToken(s: State, rest: string): (t: Token)
    requires rest != []
    ensures 0 < |TokenText(t)| <= |rest| && TokenText(t) == rest[..|TokenText(t)|]
  {
    var c := rest[0];
    if s.escaped || c == '\\' then Verbatim(Escape, [c])
    else if s.quote.Some? || c == '\'' || c == '"' then Verbatim(Quote, [c])
    else if c == '#' then Verbatim(Comment, rest)
    else PlainToken(s.last, rest)
  }

  /** The state after a token whose first character is `c` and last character is `d`. */
  function AfterToken(s: State, t: Token, c: char, d: char): State {
    var last := if IsWhitespace(d) then s.last else Some(d);
    if s.escaped then State(last, s.quote, false)
    else if c == '\\' then State(last, s.quote, true)
    else if s.quote.Some? then State(last, if c == s.quote.value then None else s.quote, false)
    else if t.Verbatim? && t.kind == Quote then State(last, Some(c), false)
    else State(last, None, false)
  }

  function NextState(s: State, rest: string): State
    requires rest != []
  {
    var t := FirstToken(s, rest);
    AfterToken(s, t, rest[0], rest[|TokenText(t)| - 1])
  }

  /** Reads the rest of a line. */
  function Lex(s: State, rest: string): seq<Token>
    decreases |rest|
  {
    if rest == [] then []
    else
      var t := FirstToken(s, rest);
      [t] + Lex(NextState(s, rest), rest[|TokenText(t)|..])
  }

  /** A way to spell call names. */
  type Names = string -> string

  function CanonicalToken(names: Names, t: Token): Token {
    if t.Word? && t.call then Word(names(t.name), true) else t
  }

  function Canonical(names: Names, tokens: seq<Token>): seq<Token> {
    if tokens == [] then [] else [CanonicalToken(names, tokens[0])] + Canonical(names, tokens[1..])
  }

  function Unlex(tokens: seq<Token>): string {
    if tokens == [] then [] else TokenText(tokens[0]) + Unlex(tokens[1..])
  }

  /** The rest of a line with its call names in canonical form. */
  function Rewritten(names: Names, s: State, rest: string): string {
    Unlex(Canonical(names, Lex(s, rest)))
  }

  lemma RewrittenStep(names: Names, s: State, rest: string)
    requires rest != []
    ensures var t := FirstToken(s, rest);
      Rewritten(names, s, rest) == TokenText(CanonicalToken(names, t))
        + Rewritten(names, NextState(s, rest), rest[|TokenText(t)|..])
  {
    var t := FirstToken(s, rest);
    var tokens := Lex(s, rest);
    assert tokens[1..] == Lex(NextState(s, rest), rest[|TokenText(t)|..]);
    assert Canonical(names, tokens)[1..] == Canonical(names, tokens[1..]);
  }

  /** Reading a line loses nothing. */
  lemma {:induction false} LexIsLossless(s: State, rest: string)
    ensures Unlex(Lex(s, rest)) == rest
    decreases |rest|
  {
    if rest != [] {
      var t := FirstToken(s, rest);
      LexIsLossless(NextState(s, rest), rest[|TokenText(t)|..]);
      UnlexCons(t, Lex(NextState(s, rest), rest[|TokenText(t)|..]));
      Rejoined(rest, |TokenText(t)|);
    }
  }

  lemma UnlexCons(t: Token, tokens: seq<Token>)
    ensures Unlex([t] + tokens) == TokenText(t) + Unlex(tokens)
  {
    assert ([t] + tokens)[1..] == tokens;
  }

  lemma Rejoined(text: string, n: nat)
    requires n <= |text|
    ensures text == text[..n] + text[n..]
  {
  }

  // ---------------------------------------------------------------------------
  // The rewriting loop

  /** The longest name at `start`. */
  method NameEnd(line: string, start: nat) returns (end: nat)
    requires start < |line| && IsNameChar(line[start])
    ensures end == start + NameLength(line[start..]) && start < end <= |line|
  {
    end := start + 1;
    while end < |line| && IsNameChar(line[end])
      invariant start < end <= |line|
      invariant forall i :: start <= i < end ==> IsNameChar(line[i])
    {
      end := end + 1;
    }
    var rest := line[start..];
    NameLengthIs(rest, end - start);
  }

  lemma {:induction false} NameLengthIs(text: string, n: nat)
    requires n <= |text| && (forall i :: 0 <= i < n ==> IsNameChar(text[i])) && (n < |text| ==> !IsNameChar(text[n]))
    ensures NameLength(text) == n
    decreases n
  {
    if n > 0 {
      NameLengthIs(text[1..], n - 1);
    }
  }

  lemma LastSolidExtends(line: string, i: nat, j: nat)
    requires i < j <= |line| && (j == i + 1 || !IsWhitespace(line[j - 1]))
    ensures LastSolid(line[..j]) == if IsWhitespace(line[j - 1]) then LastSolid(line[..i]) else Some(line[j - 1])
  {
    assert line[..j][|line[..j]| - 1] == line[j - 1];
    if j == i + 1 {
      assert line[..j][..i] == line[..i];
    }
  }

  predicate StartsComment(s: State, c: char) {
    c == '#' && !s.escaped && s.quote.None?
  }

  /** The token at `index` is replaced by `piece`, and reading goes on in the new state. */
  ghost predicate Yields(names: Names, line: string, index: nat, quote: Option<char>, escaped: bool, piece: string,
                         index': nat, quote': Option<char>, escaped': bool)
    requires index < |line|
  {
    var s := State(LastSolid(line[..index]), quote, escaped);
    var t := FirstToken(s, line[index..]);
    && piece == TokenText(CanonicalToken(names, t))
    && index' == index + |TokenText(t)| <= |line|
    && State(LastSolid(line[..index']), quote', escaped') == NextState(s, line[index..])
  }

  /** What the loop still has to append at `index`. */
  ghost function Remaining(names: Names, line: string, index: nat, quote: Option<char>, escaped: bool): string
    requires index <= |line|
  {
    Rewritten(names, State(LastSolid(line[..index]), quote, escaped), line[index..])
  }

  lemma SliceOfRest(line: string, i: nat, j: nat)
    requires i <= j <= |line|
    ensures line[i..][j - i..] == line[j..] && line[i..][..j - i] == line[i..j]
    ensures j < |line| ==> line[i..][j - i] == line[j]
  {
  }

  lemma RewrittenBy(names: Names, s: State, rest: string, piece: string, s': State, after: string)
    requires rest != []
    requires var t := FirstToken(s, rest);
      piece == TokenText(CanonicalToken(names, t)) && s' == NextState(s, rest) && after == rest[|TokenText(t)|..]
    ensures Rewritten(names, s, rest) == piece + Rewritten(names, s', after)
  {
    RewrittenStep(names, s, rest);
  }

  lemma RemainingStep(names: Names, line: string, index: nat, quote: Option<char>, escaped: bool, piece: string,
                      index': nat, quote': Option<char>, escaped': bool)
    requires index < |line| && Yields(names, line, index, quote, escaped, piece, index', quote', escaped')
    ensures index < index' <= |line|
    ensures Remaining(names, line, index, quote, escaped) == piece + Remaining(names, line, index', quote', escaped')
  {
    SliceOfRest(line, index, index');
    RewrittenBy(names, State(LastSolid(line[..index]), quote, escaped), line[index..], piece,
                State(LastSolid(line[..index']), quote', escaped'), line[index'..]);
  }

  lemma RemainingEnds(names: Names, line: string, quote: Option<char>, escaped: bool)
    ensures Remaining(names, line, 0, None, false) == Rewritten(names, START, line)
    ensures Remaining(names, line, |line|, quote, escaped) == ""
  {
    assert line[..0] == "" && line[0..] == line;
  }

  /** Reads the token at `index` and gives the text that replaces it. */
  method NextPiece(names: Names, line: string, index: nat, quote: Option<char>, escaped: bool)
    returns (piece: string, index': nat, quote': Option<char>, escaped': bool)
    requires index < |line|
    requires !StartsComment(State(LastSolid(line[..index]), quote, escaped), line[index])
    ensures Yields(names, line, index, quote, escaped, piece, index', quote', escaped')
  {
    ghost var s := State(LastSolid(line[..index]), quote, escaped);
    ghost var rest := line[index..];
    ghost var t := FirstToken(s, rest);
    var c := line[index];
    quote', escaped' := quote, false;
    if escaped || c == '\\' || quote.Some? || c == '\'' || c == '"' {
      piece, index' := [c], index + 1;
      if !escaped {
        if c == '\\' {
          escaped' := true;
        } else {
          quote' := if quote.None? then Some(c) else if c == quote.value then None else quote;
        }
      }
      assert t.Verbatim? && t.text == piece;
    } else {
      piece, index' := NextUnquoted(names, line, index, s.last);
    }
    assert rest[|TokenText(t)| - 1] == line[index' - 1];
    LastSolidExtends(line, index, index');
  }

  /** The token at the start of `rest`, outside quotes, has `n` characters and is replaced by `piece`. */
  predicate Takes(names: Names, last: Option<char>, rest: string, piece: string, n: nat) {
    && rest != []
    && var t := PlainToken(last, rest);
       && piece == TokenText(CanonicalToken(names, t)) && n == |TokenText(t)|
       && (n == 1 || !IsWhitespace(rest[n - 1])) && (t.Verbatim? ==> t.kind != Quote)
  }

  lemma RegexIsTaken(names: Names, last: Option<char>, rest: string)
    requires StartsRegex(last, rest)
    ensures Takes(names, last, rest, rest[..RegexLength(rest)], RegexLength(rest))
  {
    RegexEndIsSlash(rest[1..], false, false);
  }

  lemma StartsCall(text: string)
    ensures "(" <= text <==> text != [] && text[0] == '('
  {
  }

  lemma WordIsTaken(names: Names, last: Option<char>, rest: string, n: nat, called: bool)
    requires rest != [] && IsAsciiAlphabetic(rest[0]) && n == NameLength(rest)
    requires called == (n < |rest| && rest[n] == '(')
    ensures Takes(names, last, rest, if called then names(rest[..n]) else rest[..n], n)
  {
    StartsCall(rest[n..]);
    var t := PlainToken(last, rest);
    assert t.Word? && t.name == rest[..n] && t.call == called;
    assert IsNameChar(rest[n - 1]);
  }

  lemma OtherIsTaken(names: Names, last: Option<char>, rest: string)
    requires rest != [] && !StartsRegex(last, rest) && !IsAsciiAlphabetic(rest[0])
    ensures Takes(names, last, rest, [rest[0]], 1)
  {
  }

  /** Where the regex that starts at `index` ends, if one does. */
  method FindRegex(line: string, index: nat, ghost last: Option<char>) returns (end: Option<nat>)
    requires index < |line| && last == LastSolid(line[..index])
    ensures end.Some? <==> StartsRegex(last, line[index..])
    ensures end.Some? ==> index <= end.value < |line| && end.value + 1 - index == RegexLength(line[index..])
  {
    end := None;
    if line[index] == '/' && OpensRegex(LastSolid(line[..index])) {
      end := RegexEndAtBoundary(line, index);
      SliceOfRest(line, index, index + 1);
    }
  }

  method NextWord(names: Names, line: string, index: nat, ghost last: Option<char>) returns (piece: string, index': nat)
    requires index < |line| && IsAsciiAlphabetic(line[index])
    ensures index < index' <= |line| && Takes(names, last, line[index..], piece, index' - index)
  {
    index' := NameEnd(line, index);
    SliceOfRest(line, index, index');
    WordIsTaken(names, last, line[index..], index' - index, index' < |line| && line[index'] == '(');
    piece := line[index..index'];
    if index' < |line| && line[index'] == '(' {
      piece := names(piece);
    }
  }

  /** The same for a token outside quotes, escapes and comments. */
  method NextUnquoted(names: Names, line: string, index: nat, ghost last: Option<char>) returns (piece: string,
                      index': nat)
    requires index < |line| && last == LastSolid(line[..index])
    ensures index < index' <= |line| && Takes(names, last, line[index..], piece, index' - index)
  {
    ghost var rest := line[index..];
    var c := line[index];
    var end := FindRegex(line, index, last);
    if end.Some? {
      piece, index' := line[index..end.value + 1], end.value + 1;
      SliceOfRest(line, index, index');
      RegexIsTaken(names, last, rest);
    } else if IsAsciiAlphabetic(c) {
      piece, index' := NextWord(names, line, index, last);
    } else {
      OtherIsTaken(names, last, rest);
      piece, index' := [c], index + 1;
    }
  }

  lemma {:induction false} RegexEndIsSlash(text: string, escaped: bool, inClass: bool)
    requires RegexEnd(text, escaped, inClass).Some?
    ensures text[RegexEnd(text, escaped, inClass).value] == '/'
    decreases |text|
  {
    if RegexEnd(text, escaped, inClass) != Some(0) {
      RegexEndIsSlash(text[1..], NextEscaped(text[0], escaped), NextInClass(text[0], escaped, inClass));
    }
  }

  /** Rewrites a line token by token; a comment is copied to the end. */
  method CanonicalizeCallNames(names: Names, line: string) returns (output: string)
    ensures output == Rewritten(names, START, line)
  {
    output := "";
    var index := 0;
    var quote: Option<char> := None;
    var escaped := false;
    ghost var all := Rewritten(names, START, line);
    RemainingEnds(names, line, quote, escaped);
    assert "" + all == all;
    while index < |line|
      invariant 0 <= index <= |line|
      invariant all == output + Remaining(names, line, index, quote, escaped)
    {
      if line[index] == '#' && !escaped && quote.None? {
        CommentIsCopied(names, State(LastSolid(line[..index]), quote, escaped), line[index..]);
        return output + line[index..];
      }
      var piece, index', quote', escaped' := NextPiece(names, line, index, quote, escaped);
      RemainingStep(names, line, index, quote, escaped, piece, index', quote', escaped');
      Regroup(output, piece, Remaining(names, line, index', quote', escaped'));
      output, index, quote, escaped := output + piece, index', quote', escaped';
    }
    RemainingEnds(names, line, quote, escaped);
    assert output + "" == output;
  }

  lemma CommentIsCopied(names: Names, s: State, rest: string)
    requires rest != [] && StartsComment(s, rest[0])
    ensures Rewritten(names, s, rest) == rest
  {
    RewrittenStep(names, s, rest);
    assert rest[|rest|..] == [];
    assert rest + [] == rest;
  }

  // ---------------------------------------------------------------------------
  // Migrating twice is migrating once

  predicate IsName(name: string) {
    name != [] && IsAsciiAlphabetic(name[0]) && forall i :: 0 <= i < |name| ==> IsNameChar(name[i])
  }

  /** Spelling a name gives a name, and spelling it again changes nothing. */
  ghost predicate SpellsNames(names: Names) {
    forall name :: IsName(name) ==> IsName(names(name)) && names(names(name)) == names(name)
  }

  lemma CallIsName(names: Names, s: State, rest: string)
    requires SpellsNames(names) && rest != []
    ensures var t := FirstToken(s, rest);
      && (t.Word? ==> IsName(t.name) && IsName(TokenText(CanonicalToken(names, t))))
      && (t.Verbatim? ==> CanonicalToken(names, t) == t)
  {
  }

  /** Rewriting begins with the character it finds, or with a letter for a letter. */
  lemma RewrittenStarts(names: Names, s: State, rest: string)
    requires SpellsNames(names) && rest != []
    ensures var text := Rewritten(names, s, rest);
      text != [] && (text[0] == rest[0] || (IsAsciiAlphabetic(rest[0]) && IsAsciiAlphabetic(text[0])))
  {
    RewrittenStep(names, s, rest);
    CallIsName(names, s, rest);
    var t := FirstToken(s, rest);
    var first := TokenText(CanonicalToken(names, t));
    assert TokenText(t)[0] == rest[0];
    assert first != [] && Rewritten(names, s, rest)[0] == first[0];
  }

  /** Rewriting keeps what a regex end may be followed by. */
  lemma RewritingKeepsBoundary(names: Names, s: State, rest: string)
    requires SpellsNames(names)
    ensures IsBoundary(Rewritten(names, s, rest)) == IsBoundary(rest)
    ensures (Rewritten(names, s, rest) == []) == (rest == [])
    ensures rest != [] ==> Rewritten(names, s, rest)[0] == rest[0]
                           || (IsAsciiAlphabetic(rest[0]) && IsAsciiAlphabetic(Rewritten(names, s, rest)[0]))
  {
    if rest != [] {
      RewrittenStarts(names, s, rest);
    }
  }

  // Scanning for the end of a regex over text that changes behind it.

  function EscapedAfter(text: string, escaped: bool): bool {
    if text == [] then escaped else EscapedAfter(text[1..], NextEscaped(text[0], escaped))
  }

  function InClassAfter(text: string, escaped: bool, inClass: bool): bool {
    if text == [] then inClass
    else InClassAfter(text[1..], NextEscaped(text[0], escaped), NextInClass(text[0], escaped, inClass))
  }

  /** No end before `a` means none before `b`, when the part they share is the same. */
  lemma {:induction false} NoEndCarriesOver(shared: string, a: string, b: string, escaped: bool, inClass: bool)
    requires IsBoundary(a) == IsBoundary(b)
    requires var e, c := EscapedAfter(shared, escaped), InClassAfter(shared, escaped, inClass);
      RegexEnd(a, e, c).None? ==> RegexEnd(b, e, c).None?
    requires RegexEnd(shared + a, escaped, inClass).None?
    ensures RegexEnd(shared + b, escaped, inClass).None?
    decreases |shared|
  {
    if shared == [] {
      assert shared + a == a && shared + b == b;
    } else {
      var e, c := NextEscaped(shared[0], escaped), NextInClass(shared[0], escaped, inClass);
      assert (shared + a)[1..] == shared[1..] + a && (shared + b)[1..] == shared[1..] + b;
      NoEndCarriesOver(shared[1..], a, b, e, c);
      if shared[1..] == [] {
        assert shared[1..] + a == a && shared[1..] + b == b;
      }
    }
  }

  /** An end at the last character of the shared part stays there. */
  lemma {:induction false} EndCarriesOver(shared: string, a: string, b: string, escaped: bool, inClass: bool)
    requires shared != [] && IsBoundary(a) == IsBoundary(b)
    requires RegexEnd(shared + a, escaped, inClass) == Some(|shared| - 1)
    ensures RegexEnd(shared + b, escaped, inClass) == Some(|shared| - 1)
    decreases |shared|
  {
    var e, c := NextEscaped(shared[0], escaped), NextInClass(shared[0], escaped, inClass);
    assert (shared + a)[1..] == shared[1..] + a && (shared + b)[1..] == shared[1..] + b;
    if shared[1..] == [] {
      assert shared[1..] + a == a && shared[1..] + b == b;
    } else {
      EndCarriesOver(shared[1..], a, b, e, c);
    }
  }

  /** The slash that ends a regex is not escaped, so nothing is afterwards. */
  lemma {:induction false} NotEscapedAfterEnd(text: string, escaped: bool, inClass: bool)
    requires RegexEnd(text, escaped, inClass).Some?
    ensures !EscapedAfter(text[..RegexEnd(text, escaped, inClass).value + 1], escaped)
    decreases |text|
  {
    var n := RegexEnd(text, escaped, inClass).value + 1;
    if n > 1 {
      NotEscapedAfterEnd(text[1..], NextEscaped(text[0], escaped), NextInClass(text[0], escaped, inClass));
      assert text[..n][1..] == text[1..][..n - 1];
    }
  }

  /** Names hold nothing that the scan looks for. */
  lemma {:induction false} ScanPassesName(name: string, rest: string, inClass: bool)
    requires forall i :: 0 <= i < |name| ==> IsNameChar(name[i])
    ensures RegexEnd(name + rest, false, inClass).None? == RegexEnd(rest, false, inClass).None?
    decreases |name|
  {
    if name == [] {
      assert name + rest == rest;
    } else {
      assert (name + rest)[1..] == name[1..] + rest;
      ScanPassesName(name[1..], rest, inClass);
    }
  }

  lemma NoEndAfterWord(name: string, spelled: string, rest: string, out: string, inClass: bool)
    requires IsName(name) && IsName(spelled) && RegexEnd(name + rest, false, inClass).None?
    requires RegexEnd(rest, false, inClass).None? ==> RegexEnd(out, false, inClass).None?
    ensures RegexEnd(spelled + out, false, inClass).None?
  {
    ScanPassesName(name, rest, inClass);
    ScanPassesName(spelled, out, inClass);
  }

  lemma WordIsPlain(s: State, rest: string)
    requires rest != [] && FirstToken(s, rest).Word?
    ensures !s.escaped && !NextState(s, rest).escaped && IsName(FirstToken(s, rest).name)
  {
  }

  /** A regex that does not end in the source does not end in the rewritten text either. */
  lemma {:induction false} NoEndAfterRewriting(names: Names, s: State, rest: string, inClass: bool)
    requires SpellsNames(names) && RegexEnd(rest, s.escaped, inClass).None?
    ensures RegexEnd(Rewritten(names, s, rest), s.escaped, inClass).None?
    decreases |rest|
  {
    if rest != [] {
      var t := FirstToken(s, rest);
      var n := |TokenText(t)|;
      var s' := NextState(s, rest);
      var after, out := rest[n..], Rewritten(names, s', rest[n..]);
      RewrittenStep(names, s, rest);
      Rejoined(rest, n);
      if t.Word? {
        CallIsName(names, s, rest);
        WordIsPlain(s, rest);
        if RegexEnd(after, false, inClass).None? {
          NoEndAfterRewriting(names, s', after, inClass);
        }
        NoEndAfterWord(t.name, TokenText(CanonicalToken(names, t)), after, out, inClass);
      } else if t.kind == Comment {
        CommentIsCopied(names, s, rest);
      } else {
        RewritingKeepsBoundary(names, s', after);
        TokenLeavesState(s, rest);
        var c := InClassAfter(t.text, s.escaped, inClass);
        if RegexEnd(after, s'.escaped, c).None? {
          NoEndAfterRewriting(names, s', after, c);
        }
        NoEndCarriesOver(t.text, after, out, s.escaped, inClass);
      }
    }
  }

  /** The scan and the reader agree on what is escaped after a copied token. */
  lemma TokenLeavesState(s: State, rest: string)
    requires rest != [] && FirstToken(s, rest).Verbatim? && FirstToken(s, rest).kind != Comment
    ensures EscapedAfter(FirstToken(s, rest).text, s.escaped) == NextState(s, rest).escaped
  {
    var t := FirstToken(s, rest);
    if t.kind == RegexLiteral {
      NotEscapedAfterEnd(rest[1..], false, false);
      assert t.text[1..] == rest[1..][..RegexLength(rest) - 1];
    } else {
      assert t.text[1..] == [];
    }
  }

  /** States that read the rest of a line alike. */
  predicate Alike(s: State, t: State, rest: string) {
    && s.quote == t.quote && s.escaped == t.escaped
    && (s.last == t.last || (!s.escaped && s.quote.None? && "(" <= rest))
  }

  lemma NameIsRead(name: string, rest: string, s: State)
    requires IsName(name) && (rest != [] ==> !IsNameChar(rest[0])) && !s.escaped && s.quote.None?
    ensures FirstToken(s, name + rest) == Word(name, "(" <= rest)
  {
    NameLengthIs(name + rest, |name|);
    assert (name + rest)[..|name|] == name;
    assert (name + rest)[|name|..] == rest;
  }

  /** Reading the rewritten text finds the canonical form of the token it came from. */
  lemma FirstTokenOfRewritten(names: Names, s: State, s2: State, rest: string)
    requires SpellsNames(names) && rest != [] && Alike(s, s2, rest)
    ensures Rewritten(names, s, rest) != []
    ensures FirstToken(s2, Rewritten(names, s, rest)) == CanonicalToken(names, FirstToken(s, rest))
  {
    var t := FirstToken(s, rest);
    var n := |TokenText(t)|;
    var s' := NextState(s, rest);
    var out := Rewritten(names, s', rest[n..]);
    RewrittenStep(names, s, rest);
    CallIsName(names, s, rest);
    RewritingKeepsBoundary(names, s', rest[n..]);
    if t.Word? {
      assert n == NameLength(rest);
      assert out != [] ==> !IsNameChar(out[0]);
      NameIsRead(TokenText(CanonicalToken(names, t)), out, s2);
    } else if t.kind == RegexLiteral {
      RegexIsRead(s2, rest, out, n);
    } else if t.kind == Comment {
      assert rest[n..] == [];
      assert Rewritten(names, s, rest) == rest;
    } else if rest[0] == '/' && t.kind == Other {
      assert Rewritten(names, s, rest)[1..] == out;
      if OpensRegex(s.last) {
        NoEndAfterRewriting(names, s', rest[1..], false);
      }
    }
  }

  lemma RegexIsRead(s: State, rest: string, out: string, n: nat)
    requires StartsRegex(s.last, rest) && !s.escaped && s.quote.None? && n == RegexLength(rest)
    requires IsBoundary(out) == IsBoundary(rest[n..])
    ensures FirstToken(s, rest[..n] + out) == Verbatim(RegexLiteral, rest[..n])
  {
    var shared := rest[1..n];
    assert rest[1..] == shared + rest[n..];
    EndCarriesOver(shared, rest[n..], out, false, false);
    var text := rest[..n] + out;
    assert text[1..] == shared + out;
    assert text[..n] == rest[..n];
  }

  /** Reading a rewritten line gives the canonical form of the line's own tokens. */
  lemma {:induction false} RereadingIsCanonical(names: Names, s: State, s2: State, rest: string)
    requires SpellsNames(names) && Alike(s, s2, rest)
    ensures Lex(s2, Rewritten(names, s, rest)) == Canonical(names, Lex(s, rest))
    decreases |rest|
  {
    if rest != [] {
      var t := FirstToken(s, rest);
      var n := |TokenText(t)|;
      var s' := NextState(s, rest);
      var text := Rewritten(names, s, rest);
      RewrittenStep(names, s, rest);
      FirstTokenOfRewritten(names, s, s2, rest);
      var t' := CanonicalToken(names, t);
      var out := Rewritten(names, s', rest[n..]);
      assert text[|TokenText(t')|..] == out;
      StatesStayAlike(names, s, s2, rest, text);
      RereadingIsCanonical(names, s', NextState(s2, text), rest[n..]);
      assert Lex(s, rest)[1..] == Lex(s', rest[n..]);
    }
  }

  /** A token and its replacement leave states alike, for either keeps quotes, escapes and the last character. */
  lemma AfterTokensAlike(s: State, s2: State, t: Token, c: char, d: char, t2: Token, c2: char, d2: char, after: string)
    requires s.quote == s2.quote && s.escaped == s2.escaped
    requires t == t2 && c == c2 && d == d2 && (s.last == s2.last || !IsWhitespace(d))
    ensures Alike(AfterToken(s, t, c, d), AfterToken(s2, t2, c2, d2), after)
  {
  }

  lemma AfterCallsAlike(s: State, s2: State, t: Token, c: char, d: char, t2: Token, c2: char, d2: char, after: string)
    requires s.quote.None? && s2.quote.None? && !s.escaped && !s2.escaped && t.Word? && t2.Word? && "(" <= after
    requires c != '\\' && c2 != '\\'
    ensures Alike(AfterToken(s, t, c, d), AfterToken(s2, t2, c2, d2), after)
  {
  }

  lemma TextEnds(text: string, front: string)
    requires front <= text && front != []
    ensures text[0] == front[0] && text[|front| - 1] == front[|front| - 1]
  {
  }

  lemma StatesStayAlike(names: Names, s: State, s2: State, rest: string, text: string)
    requires SpellsNames(names) && rest != [] && text != [] && Alike(s, s2, rest)
    requires FirstToken(s2, text) == CanonicalToken(names, FirstToken(s, rest))
    ensures Alike(NextState(s, rest), NextState(s2, text), rest[|TokenText(FirstToken(s, rest))|..])
  {
    var t := FirstToken(s, rest);
    var t2 := CanonicalToken(names, t);
    var after := rest[|TokenText(t)|..];
    TextEnds(text, TokenText(t2));
    TextEnds(rest, TokenText(t));
    var c, d, c2, d2 := rest[0], rest[|TokenText(t)| - 1], text[0], text[|TokenText(t2)| - 1];
    if t.Word? && t.call {
      CallIsName(names, s, rest);
      AfterCallsAlike(s, s2, t, c, d, t2, c2, d2, after);
    } else {
      AfterTokensAlike(s, s2, t, c, d, t2, c2, d2, after);
    }
  }

  lemma {:induction false} CanonicalTwice(names: Names, s: State, rest: string)
    requires SpellsNames(names)
    ensures Canonical(names, Canonical(names, Lex(s, rest))) == Canonical(names, Lex(s, rest))
    decreases |rest|
  {
    if rest != [] {
      var n := |TokenText(FirstToken(s, rest))|;
      CallIsName(names, s, rest);
      CanonicalTwice(names, NextState(s, rest), rest[n..]);
      var tokens := Lex(s, rest);
      assert tokens[1..] == Lex(NextState(s, rest), rest[n..]);
      assert Canonical(names, tokens)[1..] == Canonical(names, tokens[1..]);
    }
  }

  /** Rewriting a rewritten line changes nothing. */
  lemma RewritingIsIdempotent(names: Names, line: string)
    requires SpellsNames(names)
    ensures Rewritten(names, START, Rewritten(names, START, line)) == Rewritten(names, START, line)
  {
    RereadingIsCanonical(names, START, START, line);
    CanonicalTwice(names, START, line);
  }

  // ---------------------------------------------------------------------------
  // With the language's own names

  lemma LanguageSpellsNames()
    ensures SpellsNames(CanonicalCallName)
  {
    forall name | IsName(name)
      ensures IsName(CanonicalCallName(name)) && CanonicalCallName(CanonicalCallName(name)) == CanonicalCallName(name)
    {
      CanonicalCallNameIsStable(name);
      CanonicalIsName(CanonicalCallName(name));
    }
  }

  lemma CanonicalIsName(name: string)
    ensures LooksCanonical(name) ==> IsName(name)
  {
    if LooksCanonical(name) {
      assert IsCanonicalChar(name[0]);
    }
  }

  /** Migrates one line of rule source. */
  method MigrateLine(line: string) returns (migrated: string)
    ensures migrated == Rewritten(CanonicalCallName, START, line)
  {
    migrated := CanonicalizeCallNames(CanonicalCallName, line);
  }

  /**
   Migration of a line is idempotent, and the migrated line reads as the same tokens:
   quoted, escaped, regex and comment text unchanged, call names canonical.
   */
  lemma MigrationIsIdempotent(line: string)
    ensures var migrated := Rewritten(CanonicalCallName, START, line);
      && Rewritten(CanonicalCallName, START, migrated) == migrated
      && Lex(START, migrated) == Canonical(CanonicalCallName, Lex(START, line))
  {
    LanguageSpellsNames();
    RewritingIsIdempotent(CanonicalCallName, line);
    RereadingIsCanonical(CanonicalCallName, START, START, line);
  }

  /** Every token of the migrated line is the source's own unless it is a call name. */
  lemma {:induction false} OnlyCallNamesChange(names: Names, tokens: seq<Token>, k: nat)
    requires k < |tokens|
    ensures |Canonical(names, tokens)| == |tokens|
    ensures Canonical(names, tokens)[k] ==
      if tokens[k].Word? && tokens[k].call then Word(names(tokens[k].name), true) else tokens[k]
    decreases |tokens|
  {
    if k > 0 {
      OnlyCallNamesChange(names, tokens[1..], k - 1);
    } else if |tokens| > 1 {
      OnlyCallNamesChange(names, tokens[1..], 0);
    }
  }
}
