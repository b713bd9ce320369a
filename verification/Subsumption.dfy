/**
 When one matcher covers another: what the shadow lint claims, and exactly when the
 claim is true.
 */
module Subsumption {
  import opened Text
  import opened Model
  import opened Glob
  import opened Matching
  import opened Compiled
  import Url

  function AfterPrefix(pattern: string, prefix: string): Option<string> {
    if prefix <= pattern then Some(pattern[|prefix|..]) else None
  }

  predicate HostPatternSubsumes(a: string, b: string, globs: GlobSet) {
    if a == b || a == "*" || a == "**" then true
    else if !GlobActive(b) then HostMatchesId(globs, a, b, globs.Id(NormalizeHost(a), '.'))
    else
      var base := AfterPrefix(a, "**.");
      var later := if AfterPrefix(b, "**.").Some? then AfterPrefix(b, "**.") else AfterPrefix(b, "*.");
      && base.Some? && later.Some?
      && !GlobActive(later.value)
      && (later.value == base.value || DottedSuffixPrefix(later.value, base.value).Some?)
  }

  predicate GlobSubsumes(a: GlobMatcher, b: GlobMatcher, globs: GlobSet) {
    && (a.scheme.None? || a.scheme == b.scheme)
    && HostPatternSubsumes(a.host, b.host, globs)
    && (a.port.None? || a.port == b.port)
    && (a.path.None? || a.path == b.path)
    && (a.query.None? || a.query == b.query)
  }

  /** The lint's claim that `a` matches every URL that `b` matches. */
  predicate MatcherSubsumes(w: World, a: Matcher, b: Matcher, globs: GlobSet) {
    match (a, b)
    case (Glob(x), Glob(y)) => GlobSubsumes(x, y, globs)
    case (Glob(_), ExactUrl(url)) =>
      w.parse(url).Some? && MatchCompiled(w, a, w.parse(url).value, url, globs, BindMatcher(a, globs)).Some?
    case (ExactUrl(x), ExactUrl(y)) => x == y
    case _ => false
  }

  /** Host patterns are stored without brackets and in lower case, as the parser leaves them. */
  predicate HostIsNormal(m: Matcher) {
    m.Glob? ==> NormalizeHost(m.glob.host) == m.glob.host
  }

  /**
   The one case in which the claim can fail: an exact URL without a query allows
   every query, but the lint tries it against the glob's query with an empty one.
   */
  predicate QueryIsCovered(w: World, a: Matcher, b: Matcher) {
    a.Glob? && b.ExactUrl? && a.glob.query.Some? && w.parse(b.url).Some? && w.parse(b.url).value.query.None?
    ==> AcceptsEverything(a.glob.query.value)
  }

  lemma HostSubsumptionIsSound(a: string, b: string, host: string, globs: GlobSet)
    requires globs.Sound() && NormalizeHost(a) == a && NormalizeHost(b) == b
    requires HostPatternUsesRegex(a) ==> ('.', a) in globs.ids
    requires HostPatternSubsumes(a, b, globs) && HostMatches(b, b, host)
    ensures HostMatches(a, a, host)
  {
    var actual := NormalizeHost(host);
    if a == b || a == "*" || a == "**" {
    } else if !GlobActive(b) {
      LiteralHost(b, actual);
      SpecialWhenNotRegex(a, actual);
      if HostPatternUsesRegex(a) {
        RunIdIsMatch(globs, a, '.', actual);
      }
    } else {
      var base := a[3..];
      if "**." <= b {
        DottedSuffixTransitive(actual, b[3..], base);
      } else {
        DottedSuffixTransitive(actual, b[2..], base);
      }
    }
  }

  lemma LiteralHost(b: string, actual: string)
    requires !GlobActive(b) && SpecialHostMatch(b, actual) == Some(true)
    ensures actual == b
  {
    assert b != [] ==> b[0] in b;
  }

  lemma DottedSuffixTransitive(host: string, middle: string, base: string)
    requires host == middle || DottedSuffixPrefix(host, middle).Some?
    requires middle == base || DottedSuffixPrefix(middle, base).Some?
    ensures host == base || DottedSuffixPrefix(host, base).Some?
  {
    if host != middle && middle != base {
      assert host[|host| - |base|..] == middle[|middle| - |base|..];
      var labels := host[..|host| - |base|];
      assert labels[|labels| - 1] == host[|host| - |base| - 1] == middle[|middle| - |base| - 1];
      assert middle[..|middle| - |base|][|middle| - |base| - 1] == middle[|middle| - |base| - 1];
    }
  }

  lemma GlobSubsumptionIsSound(a: GlobMatcher, b: GlobMatcher, url: UrlParts, globs: GlobSet)
    requires globs.Sound() && Registered(globs.ids, MatcherKeys(Glob(a)))
    requires NormalizeHost(a.host) == a.host && NormalizeHost(b.host) == b.host
    requires GlobSubsumes(a, b, globs) && GlobMatch(b, url).Some?
    ensures GlobMatch(a, url).Some?
  {
    GlobKeysRegistered(a, globs);
    HostSubsumptionIsSound(a.host, b.host, url.host, globs);
  }

  /** A glob that matches one URL of an exact matcher matches all of them, if queries are covered. */
  lemma GlobOverExact(w: World, a: GlobMatcher, expected: string, url: UrlParts)
    requires ExactUrlMatches(w, expected, url) && GlobMatch(a, w.parse(expected).value).Some?
    requires QueryIsCovered(w, Glob(a), ExactUrl(expected))
    ensures GlobMatch(a, url).Some?
  {
    var parsed := w.parse(expected).value;
    assert PathCaptures(a.path, url) == PathCaptures(a.path, parsed);
    assert QueryCaptures(a.query, url).Some? by {
      if a.query.Some? && parsed.query.None? {
        AcceptsEverythingIsExact(a.query.value, '&');
        CaptureIsComplete(a.query.value, '&', if url.query.Some? then url.query.value else "");
      }
    }
  }

  /** With queries covered, the lint's claim about matchers is true of every URL. */
  lemma SubsumptionIsSound(w: World, a: Matcher, b: Matcher, url: UrlParts, raw: string, globs: GlobSet)
    requires globs.Sound() && Registered(globs.ids, MatcherKeys(a)) && HostIsNormal(a) && HostIsNormal(b)
    requires MatcherSubsumes(w, a, b, globs) && QueryIsCovered(w, a, b)
    requires MatcherMatch(w, b, url, raw).Some?
    ensures MatcherMatch(w, a, url, raw).Some?
  {
    match (a, b)
    case (Glob(x), Glob(y)) => GlobSubsumptionIsSound(x, y, url, globs);
    case (Glob(x), ExactUrl(expected)) =>
      MatchCompiledIsDirect(w, a, w.parse(expected).value, expected, globs);
      GlobOverExact(w, x, expected, url);
    case _ =>
  }

  /** Adding a query to a URL without one changes its query and nothing else. */
  ghost predicate QueriesExtend(w: World) {
    forall url, query :: w.parse(url).Some? && w.parse(url).value.query.None? && '#' !in query
      ==> w.parse(WithQuery(url, query)) == Some(w.parse(url).value.(query := Some(query)))
  }

  function WithQuery(url: string, query: string): string {
    url + "?" + query
  }

  /** The engine's own URL parser obeys that law. */
  lemma ParserExtendsQueries(w: World, isIpv6: string -> bool)
    requires forall s :: w.parse(s) == Url.Parse(s, isIpv6)
    ensures QueriesExtend(w)
  {
    forall url, query | w.parse(url).Some? && w.parse(url).value.query.None? && '#' !in query
      ensures w.parse(WithQuery(url, query)) == Some(w.parse(url).value.(query := Some(query)))
    {
      Url.QueryExtends(url, query, isIpv6);
    }
  }

  /** Without coverage the claim is false: some URL that `b` matches escapes `a`. */
  lemma UncoveredQueryEscapes(w: World, a: Matcher, b: Matcher) returns (raw: string)
    requires QueriesExtend(w) && !QueryIsCovered(w, a, b)
    ensures w.parse(raw).Some?
    ensures MatcherMatch(w, b, w.parse(raw).value, raw).Some? && MatcherMatch(w, a, w.parse(raw).value, raw).None?
  {
    var pattern := a.glob.query.value;
    AcceptsEverythingIsExact(pattern, '&');
    var query :| query in {"", "a", ['&']} && !Accepts(pattern, '&', query);
    raw := WithQuery(b.url, query);
    assert '#' !in query;
    assert w.parse(raw) == Some(w.parse(b.url).value.(query := Some(query)));
    CaptureIsComplete(pattern, '&', query);
  }

  /** Among subsumptions the lint reports, exactly those with a covered query are true. */
  lemma SubsumptionIsExact(w: World, a: Matcher, b: Matcher, globs: GlobSet)
    requires globs.Sound() && Registered(globs.ids, MatcherKeys(a)) && HostIsNormal(a) && HostIsNormal(b)
    requires QueriesExtend(w) && MatcherSubsumes(w, a, b, globs)
    ensures QueryIsCovered(w, a, b) <==>
      forall raw | w.parse(raw).Some? && MatcherMatch(w, b, w.parse(raw).value, raw).Some? ::
        MatcherMatch(w, a, w.parse(raw).value, raw).Some?
  {
    if QueryIsCovered(w, a, b) {
      forall raw | w.parse(raw).Some? && MatcherMatch(w, b, w.parse(raw).value, raw).Some?
        ensures MatcherMatch(w, a, w.parse(raw).value, raw).Some?
      {
        SubsumptionIsSound(w, a, b, w.parse(raw).value, raw, globs);
      }
    } else {
      var raw := UncoveredQueryEscapes(w, a, b);
    }
  }
}
