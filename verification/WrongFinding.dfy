/**
 Rules for which shadow lint reports a finding that a request refutes.
 */
module WrongFinding {
  import opened Text
  import opened Actions
  import opened Model
  import opened Glob
  import opened Matching
  import opened Compiled
  import opened RuleOrder
  import opened Effects
  import opened Subsumption
  import opened ShadowReport
  import opened ShadowLint
  import opened ShadowExactness

  /** The URL `http://host/`. */
  function RootOf(host: string): string {
    Url.HTTP + (host + "/")
  }

  function RootParts(host: string): UrlParts {
    UrlParts("http", host, None, "/", None)
  }

  /** `host?* host(x)` */
  function WildcardQuery(host: string): Rule {
    Rule("g", 1, "", Matcher.Glob(GlobMatcher(None, host, None, None, Some("*"))), [Plain(Host, "x")], [], false, false)
  }

  /** `=http://host/ host(y)` */
  function PlainUrl(host: string): Rule {
    Rule("g", 2, "", ExactUrl(RootOf(host)), [Plain(Host, "y")], [], false, false)
  }

  function TwoRules(host: string): seq<Rule> {
    [WildcardQuery(host), PlainUrl(host)]
  }

  /** A host in lower case, and a parser that is the engine's own. */
  ghost predicate Setting(w: World, host: string, isIpv6: string -> bool) {
    Url.IsPlainHost(host) && Lower(host) == host && forall s :: w.parse(s) == Url.Parse(s, isIpv6)
  }

  lemma RootParses(w: World, host: string, isIpv6: string -> bool)
    requires Setting(w, host, isIpv6)
    ensures w.parse(RootOf(host)) == Some(RootParts(host))
  {
    Url.PlainUrlParses(host, isIpv6);
  }

  lemma PlainHostMatches(host: string)
    requires Url.IsPlainHost(host) && Lower(host) == host
    ensures NormalizeHost(host) == host && HostMatches(host, host, host)
  {
    assert Trim(host, IsBracket) == host;
    assert !GlobActive(host);
  }

  /** A single star captures exactly the texts without the separator. */
  lemma StarCaptures(sep: char, text: string)
    ensures Capture("*", sep, text).Some? <==> sep !in text
  {
    CaptureIsComplete("*", sep, text);
    assert "*"[1..] == "";
    assert text[|text|..] == "" && text[..|text|] == text;
    assert Accepts("", sep, text[|text|..]);
  }

  /** The wildcard query matches the URL without a query, and with one that has no `&`. */
  lemma StarQueryMatches(host: string, query: Option<string>)
    requires Url.IsPlainHost(host) && Lower(host) == host
    ensures GlobMatch(WildcardQuery(host).matcher.glob, RootParts(host).(query := query)).Some? <==>
      query.None? || '&' !in query.value
  {
    PlainHostMatches(host);
    StarCaptures('&', if query.Some? then query.value else "");
  }

  lemma OneActionFamilies(rule: Rule, payload: string)
    requires rule.actions == [Plain(Host, payload)]
    ensures SingleFamilies(rule) == [Host]
  {
    var none: seq<Action> := [];
    assert rule.actions[..0] == none && Effective(none) == [] && LocalSkip(none) == {};
    assert Effective(rule.actions) == [Plain(Host, payload)];
    assert [Plain(Host, payload)][..0] == none && SinglesOf(none) == [];
  }

  lemma RulesAreCovering(w: World, host: string, globs: GlobSet, isIpv6: string -> bool)
    requires Setting(w, host, isIpv6)
    requires globs.Sound() && Registered(globs.ids, MatcherKeys(WildcardQuery(host).matcher))
    ensures Covers(w, WildcardQuery(host), PlainUrl(host), globs)
  {
    RootParses(w, host, isIpv6);
    StarQueryMatches(host, None);
    MatchCompiledIsDirect(w, WildcardQuery(host).matcher, RootParts(host), RootOf(host), globs);
  }

  lemma OrderIsSource(host: string, ordered: seq<nat>)
    requires InOrder(TwoRules(host), ordered) && forall v :: v in ordered <==> 0 <= v < 2
    ensures ordered == [0, 1]
  {
    OrderIsUnique(TwoRules(host), ordered, [0, 1]);
  }

  lemma SharedFamilyIsReported(s: Subject)
    requires s.Valid() && s.ordered == [0, 1] && s.families == [[Host], [Host]] && s.covers(0, 1)
    ensures Finding(1, 0, [Host]) in s.FindingsFrom(0)
  {
    assert Intersect([Host], [Host]) == [Host];
    assert s.FindingsFor(1, 0, [Host])[0] == Finding(1, 0, [Host]);
    assert s.FindingsFrom(1) == s.FindingsFor(1, 0, [Host]) + s.FindingsFrom(2);
    assert s.FindingsFrom(0) == s.FindingsFor(0, 0, [Host]) + s.FindingsFrom(1);
  }

  lemma FamiliesAreListed(w: World, host: string, globs: GlobSet, s: Subject)
    requires Describes(s, w, TwoRules(host), globs)
    ensures s.ordered == [0, 1] && s.families == [[Host], [Host]]
  {
    OrderIsSource(host, s.ordered);
    OneActionFamilies(WildcardQuery(host), "x");
    OneActionFamilies(PlainUrl(host), "y");
  }

  /** The lint reports that the second rule can never win the family `host`. */
  lemma FindingIsReported(w: World, host: string, globs: GlobSet, s: Subject, isIpv6: string -> bool)
    requires Setting(w, host, isIpv6) && Describes(s, w, TwoRules(host), globs)
    requires globs.Sound() && Registered(globs.ids, MatcherKeys(WildcardQuery(host).matcher))
    ensures Finding(1, 0, [Host]) in s.FindingsFrom(0)
  {
    FamiliesAreListed(w, host, globs, s);
    RulesAreCovering(w, host, globs, isIpv6);
    assert s.covers(0, 1);
    SharedFamilyIsReported(s);
  }

  lemma QueryParses(w: World, host: string, isIpv6: string -> bool)
    requires Setting(w, host, isIpv6)
    ensures w.parse(WithQuery(RootOf(host), "&")) == Some(RootParts(host).(query := Some("&")))
  {
    RootParses(w, host, isIpv6);
    Url.QueryExtends(RootOf(host), "&", isIpv6);
  }

  lemma QueryEscapes(w: World, host: string, isIpv6: string -> bool, raw: string)
    requires Setting(w, host, isIpv6)
    ensures var url := RootParts(host).(query := Some("&"));
      && MatcherMatch(w, WildcardQuery(host).matcher, url, raw).None?
      && MatcherMatch(w, PlainUrl(host).matcher, url, raw).Some?
  {
    RootParses(w, host, isIpv6);
    StarQueryMatches(host, Some("&"));
  }

  /** Every request for `http://host/?&` makes it win. */
  lemma FindingIsRefuted(w: World, host: string, isIpv6: string -> bool, req: Request, res: Option<Response>,
                         body: bool)
    requires Setting(w, host, isIpv6) && req.url == WithQuery(RootOf(host), "&")
    ensures Wins(w, TwoRules(host), 1, Host, req, res, body)
  {
    QueryParses(w, host, isIpv6);
    QueryEscapes(w, host, isIpv6, req.url);
    EscapesAlone(w, TwoRules(host), 0, 1, req, res, body);
    OneActionFamilies(PlainUrl(host), "y");
    OnlyRuleWins(w, TwoRules(host), 1, Host, req, res, body);
  }
}
