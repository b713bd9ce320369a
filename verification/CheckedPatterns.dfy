/**
 Which rules that the parser accepts can be compiled into a snapshot.
 */
module CheckedPatterns {
  import opened Text
  import opened Model
  import opened Glob
  import opened Matching
  import opened Compiled

  // ---------------------------------------------------------------------------
  // What the parser checks

  predicate Checked(w: World, pattern: string, sep: char) {
    Compiles(w, (sep, pattern))
  }

  predicate CheckedOptional(w: World, pattern: Option<string>, sep: char) {
    pattern.Some? ==> Checked(w, pattern.value, sep)
  }

  predicate CheckedMatcher(w: World, m: Matcher) {
    match m
    case Glob(glob) =>
      && Checked(w, glob.host, '.') && CheckedOptional(w, glob.port, '.')
      && CheckedOptional(w, glob.path, '/') && CheckedOptional(w, glob.query, '&')
    case NotMatcher(inner) => CheckedMatcher(w, inner)
    case _ => true
  }

  predicate CheckedIps(w: World, patterns: seq<string>) {
    forall i :: 0 <= i < |patterns| ==>
      patterns[i] != [] && Trim(patterns[i], IsWhitespace) == patterns[i] && Checked(w, patterns[i], '\0')
  }

  predicate CheckedCondition(w: World, c: Condition)
    decreases c, 0
  {
    match c
    case HostIs(pattern) => Checked(w, pattern, '.')
    case UrlGlob(pattern) => Checked(w, pattern, '\0')
    case ClientIp(patterns) => CheckedIps(w, patterns)
    case ServerIp(patterns) => CheckedIps(w, patterns)
    case Any(cs) => CheckedConditions(w, cs)
    case All(cs) => CheckedConditions(w, cs)
    case Not(inner) => CheckedCondition(w, inner)
    case _ => true
  }

  predicate CheckedConditions(w: World, cs: seq<Condition>)
    decreases cs, 1
  {
    cs != [] ==> CheckedCondition(w, cs[0]) && CheckedConditions(w, cs[1..])
  }

  predicate CheckedRule(w: World, rule: Rule) {
    CheckedMatcher(w, rule.matcher) && CheckedConditions(w, rule.conditions)
  }

  // ---------------------------------------------------------------------------
  // What the check leaves open

  /** The text ends in an odd number of backslashes. */
  predicate OddTail(s: string) {
    s != [] && s[|s| - 1] == '\\' && !OddTail(s[..|s| - 1])
  }

  /** Stripping the brackets at the end strips a character that a backslash quotes. */
  predicate QuotesABracket(pattern: string) {
    OddTail(TrimEnd(pattern, IsBracket))
  }

  predicate IpsKeepQuotes(patterns: seq<string>) {
    forall i :: 0 <= i < |patterns| && IpPatternUsesRegex(patterns[i]) ==> !QuotesABracket(patterns[i])
  }

  predicate KeepsQuotes(c: Condition)
    decreases c, 0
  {
    match c
    case ClientIp(patterns) => IpsKeepQuotes(patterns)
    case ServerIp(patterns) => IpsKeepQuotes(patterns)
    case Any(cs) => AllKeepQuotes(cs)
    case All(cs) => AllKeepQuotes(cs)
    case Not(inner) => KeepsQuotes(inner)
    case _ => true
  }

  predicate AllKeepQuotes(cs: seq<Condition>)
    decreases cs, 1
  {
    cs != [] ==> KeepsQuotes(cs[0]) && AllKeepQuotes(cs[1..])
  }

  // ---------------------------------------------------------------------------
  // Backslashes at the end

  /** Text in front that leaves nothing to quote does not matter. */
  lemma {:induction false} OddTailAfter(before: string, s: string)
    requires !OddTail(before)
    ensures OddTail(before + s) == OddTail(s)
    decreases |s|
  {
    if s == [] {
      assert before + s == before;
    } else {
      OddTailAfter(before, s[..|s| - 1]);
      assert (before + s)[..|before + s| - 1] == before + s[..|s| - 1];
    }
  }

  /** A backslash is left without a character to quote exactly after an odd number at the end. */
  lemma {:induction false} DanglingIsOddTail(s: string)
    ensures DanglingEscape(s) <==> OddTail(s)
    decreases |s|
  {
    if s == [] {
    } else if s[0] != '\\' {
      DanglingIsOddTail(s[1..]);
      assert s == [s[0]] + s[1..];
      OddTailAfter([s[0]], s[1..]);
    } else if |s| == 1 {
      assert s == "\\";
    } else {
      DanglingIsOddTail(s[2..]);
      var quoted := s[..2];
      assert quoted[..1] == "\\" && OddTail(quoted[..1]);
      assert s == quoted + s[2..];
      OddTailAfter(quoted, s[2..]);
    }
  }

  lemma {:induction false} LowerKeepsOddTail(s: string)
    ensures OddTail(Lower(s)) == OddTail(s)
    decreases |s|
  {
    if s != [] {
      LowerKeepsOddTail(s[..|s| - 1]);
      assert Lower(s)[..|s| - 1] == Lower(s[..|s| - 1]);
    }
  }

  lemma {:induction false} LeadingBracketStays(c: char, s: string)
    requires IsBracket(c)
    ensures OddTail(TrimEnd([c] + s, IsBracket)) == OddTail(TrimEnd(s, IsBracket))
    decreases |s|
  {
    if s == [] {
      assert [c] + s == [c] && [c][..0] == [];
    } else if IsBracket(s[|s| - 1]) {
      LeadingBracketStays(c, s[..|s| - 1]);
      assert ([c] + s)[..|s|] == [c] + s[..|s| - 1];
    } else {
      OddTailAfter([c], s);
    }
  }

  lemma {:induction false} TrimmedTail(s: string)
    ensures OddTail(Trim(s, IsBracket)) == QuotesABracket(s)
    decreases |s|
  {
    if s != [] && IsBracket(s[0]) {
      TrimmedTail(s[1..]);
      LeadingBracketStays(s[0], s[1..]);
      assert s == [s[0]] + s[1..];
    }
  }

  lemma TranslatesUnlessOddTail(pattern: string, sep: char)
    ensures Source(pattern, sep).Some? <==> !OddTail(pattern)
  {
    CompilationPreservesMeaning(pattern, sep, "");
    DanglingIsOddTail(pattern);
  }

  // ---------------------------------------------------------------------------
  // Which checked rules compile

  predicate AllTranslate(keys: seq<PatternKey>) {
    forall i :: 0 <= i < |keys| ==> Source(keys[i].1, keys[i].0).Some?
  }

  /** Those of the programs that exist are within the size limit. */
  predicate AllFit(w: World, keys: seq<PatternKey>) {
    forall i :: 0 <= i < |keys| && Source(keys[i].1, keys[i].0).Some? ==> w.fits(Source(keys[i].1, keys[i].0).value)
  }

  lemma TranslateBoth(a: seq<PatternKey>, b: seq<PatternKey>)
    ensures AllTranslate(a + b) <==> AllTranslate(a) && AllTranslate(b)
  {
    if AllTranslate(a + b) {
      forall i | 0 <= i < |b|
        ensures Source(b[i].1, b[i].0).Some?
      {
        assert (a + b)[|a| + i] == b[i];
      }
      forall i | 0 <= i < |a|
        ensures Source(a[i].1, a[i].0).Some?
      {
        assert (a + b)[i] == a[i];
      }
    }
  }

  lemma OneTranslates(needed: bool, sep: char, pattern: string)
    ensures AllTranslate(OptionalKey(needed, sep, pattern)) <==> (needed ==> Source(pattern, sep).Some?)
  {
    if needed {
      assert OptionalKey(needed, sep, pattern)[0] == (sep, pattern);
    }
  }

  lemma {:induction false} MatcherTranslates(w: World, m: Matcher)
    requires CheckedMatcher(w, m)
    ensures AllTranslate(MatcherKeys(m))
    decreases m
  {
    if m.NotMatcher? {
      MatcherTranslates(w, m.inner);
    }
  }

  lemma {:induction false} IpsTranslate(w: World, patterns: seq<string>)
    requires w.SocketsAreLiteral() && CheckedIps(w, patterns)
    ensures AllTranslate(IpKeys(w, patterns)) <==> IpsKeepQuotes(patterns)
    decreases |patterns|
  {
    if patterns != [] {
      var pattern, rest := patterns[0], patterns[1..];
      IpsTranslate(w, rest);
      TranslateBoth(OptionalKey(IpPatternUsesRegex(pattern), '\0', NormalizeIp(w, pattern)), IpKeys(w, rest));
      OneTranslates(IpPatternUsesRegex(pattern), '\0', NormalizeIp(w, pattern));
      TranslatesUnlessOddTail(NormalizeIp(w, pattern), '\0');
      TrimmedTail(pattern);
      assert patterns == [pattern] + rest;
    }
  }

  lemma HostTranslates(w: World, pattern: string)
    requires Checked(w, pattern, '.')
    ensures AllTranslate(OptionalKey(HostPatternUsesRegex(pattern), '.', Lower(pattern)))
  {
    OneTranslates(HostPatternUsesRegex(pattern), '.', Lower(pattern));
    TranslatesUnlessOddTail(pattern, '.');
    TranslatesUnlessOddTail(Lower(pattern), '.');
    LowerKeepsOddTail(pattern);
  }

  lemma {:induction false} ConditionTranslates(w: World, c: Condition)
    requires w.SocketsAreLiteral() && CheckedCondition(w, c)
    ensures AllTranslate(ConditionKeys(w, c)) <==> KeepsQuotes(c)
    decreases c, 0
  {
    match c
    case HostIs(pattern) => HostTranslates(w, pattern);
    case ClientIp(patterns) => IpsTranslate(w, patterns);
    case ServerIp(patterns) => IpsTranslate(w, patterns);
    case Any(cs) => ConditionsTranslate(w, cs);
    case All(cs) => ConditionsTranslate(w, cs);
    case Not(inner) => ConditionTranslates(w, inner);
    case _ =>
  }

  lemma {:induction false} ConditionsTranslate(w: World, cs: seq<Condition>)
    requires w.SocketsAreLiteral() && CheckedConditions(w, cs)
    ensures AllTranslate(ConditionsKeys(w, cs)) <==> AllKeepQuotes(cs)
    decreases cs, 1
  {
    if cs != [] {
      ConditionTranslates(w, cs[0]);
      ConditionsTranslate(w, cs[1..]);
      TranslateBoth(ConditionKeys(w, cs[0]), ConditionsKeys(w, cs[1..]));
    }
  }

  /**
   The patterns of a rule that the parser accepts all have programs if and only if no
   IP condition holds a glob in which a backslash quotes a bracket at the end.
   */
  lemma CheckedRuleTranslates(w: World, rule: Rule)
    requires w.SocketsAreLiteral() && CheckedRule(w, rule)
    ensures AllTranslate(RuleKeys(w, rule)) <==> AllKeepQuotes(rule.conditions)
  {
    MatcherTranslates(w, rule.matcher);
    ConditionsTranslate(w, rule.conditions);
    TranslateBoth(MatcherKeys(rule.matcher), ConditionsKeys(w, rule.conditions));
  }

  /** Compiling the patterns of accepted rules panics exactly over such a glob or over a program that is too big. */
  lemma CheckedSnapshotCompiles(w: World, rules: seq<Rule>)
    requires w.SocketsAreLiteral() && forall r :: 0 <= r < |rules| ==> CheckedRule(w, rules[r])
    ensures SnapshotCompiles(w, rules) <==>
      forall r :: 0 <= r < |rules| ==> AllKeepQuotes(rules[r].conditions) && AllFit(w, RuleKeys(w, rules[r]))
  {
    forall r | 0 <= r < |rules|
      ensures AllCompile(w, RuleKeys(w, rules[r])) <==>
              AllKeepQuotes(rules[r].conditions) && AllFit(w, RuleKeys(w, rules[r]))
    {
      CheckedRuleTranslates(w, rules[r]);
    }
  }

  // ---------------------------------------------------------------------------
  // A rule that is accepted and panics

  const QUOTED_BRACKET := "a\\]"

  lemma QuotedBracketTranslates()
    ensures Source(QUOTED_BRACKET, '\0') == Some("(?s)\\Aa\\]\\z")
  {
    assert QUOTED_BRACKET[1..] == "\\]" && "\\]"[2..] == "";
    assert BodySource("\\]", '\0', 0) == Some("\\]" + "");
    assert BodySource(QUOTED_BRACKET, '\0', 0) == Some("a" + ("\\]" + ""));
    assert OPENING + ("a" + ("\\]" + "")) + CLOSING == "(?s)\\Aa\\]\\z";
  }

  lemma QuotedBracketIsQuoted()
    ensures QuotesABracket(QUOTED_BRACKET) && IpPatternUsesRegex(QUOTED_BRACKET)
  {
    assert QUOTED_BRACKET[..2] == "a\\" && "a\\"[..1] == "a";
    assert QUOTED_BRACKET[1] == '\\';
  }

  lemma OneIpRule(w: World, rule: Rule, pattern: string)
    requires CheckedMatcher(w, rule.matcher) && rule.conditions == [ClientIp([pattern])]
    requires pattern != [] && Trim(pattern, IsWhitespace) == pattern && Checked(w, pattern, '\0')
    ensures CheckedRule(w, rule)
    ensures IpPatternUsesRegex(pattern) && QuotesABracket(pattern) ==> !AllKeepQuotes(rule.conditions)
  {
    var c := ClientIp([pattern]);
    assert rule.conditions[0] == c && [pattern][0] == pattern;
    assert CheckedConditions(w, rule.conditions[1..]);
    assert KeepsQuotes(c) == IpsKeepQuotes([pattern]);
  }

  /** The parser accepts `clientIp(a\])`, and building a snapshot of it panics. */
  lemma QuotedBracketPanics(w: World, rule: Rule)
    requires w.SocketsAreLiteral() && w.fits("(?s)\\Aa\\]\\z")
    requires CheckedMatcher(w, rule.matcher) && rule.conditions == [ClientIp([QUOTED_BRACKET])]
    ensures CheckedRule(w, rule) && !SnapshotCompiles(w, [rule])
  {
    QuotedBracketTranslates();
    QuotedBracketIsQuoted();
    OneIpRule(w, rule, QUOTED_BRACKET);
    var rules := [rule];
    CheckedSnapshotCompiles(w, rules);
    assert rules[0] == rule;
  }
}
