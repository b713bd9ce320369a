/**
 Parsing of absolute request URLs into scheme, host, port, path and query, and the law
 that the exactness of shadow lint rests on: a query added to a URL that has none
 changes the query of the parsed URL and nothing else.
 */
module Url {
  import opened Text
  import opened Model
  import opened Search

  predicate IsSchemeChar(c: char) {
    IsAsciiAlphanumeric(c) || c == '+' || c == '-' || c == '.'
  }

  predicate ValidScheme(s: string) {
    s != [] && IsAsciiAlphabetic(s[0]) && forall i :: 0 <= i < |s| ==> IsSchemeChar(s[i])
  }

  predicate IsControl(c: char) {
    c as int < 0x20 || 0x7F <= c as int <= 0x9F
  }

  function ParsePort(s: string): Option<nat> {
    var n := ParseNumber(s);
    if n.Some? && 1 <= n.value <= 65535 then n else None
  }

  /** Splits an authority into host and optional port; `isIpv6` judges bracketed hosts. */
  function ParseAuthority(a: string, isIpv6: string -> bool): Option<(string, Option<nat>)> {
    if a != [] && a[0] == '[' then
      var end := Find(a, IsCloseBracket);
      if end == |a| || !isIpv6(a[1..end]) then None
      else if end + 1 == |a| then Some((a, None))
      else if a[end + 1] != ':' then None
      else
        var port := ParsePort(a[end + 2..]);
        if port.Some? then Some((a[..end + 1], port)) else None
    else if '[' in a || ']' in a then None
    else
      var colon := Find(a, IsColon);
      if colon == |a| then Some((a, None))
      else if colon == 0 || ':' in a[colon + 1..] then None
      else
        var port := ParsePort(a[colon + 1..]);
        if port.Some? then Some((a[..colon], port)) else None
  }

  predicate IsCloseBracket(c: char) {
    c == ']'
  }

  predicate IsQuestionMark(c: char) {
    c == '?'
  }

  predicate StartsPathOrQuery(c: char) {
    c == '/' || c == '?'
  }

  function Parse(input: string, isIpv6: string -> bool): Option<UrlParts> {
    var at := FindText(input, "://");
    if at.None? then None else ParseAt(input, at.value, isIpv6)
  }

  /** Parses a URL whose scheme ends at `at`. */
  function ParseAt(input: string, at: nat, isIpv6: string -> bool): Option<UrlParts>
    requires at + 3 <= |input|
  {
    if !ValidScheme(input[..at]) || '#' in input then None
    else ParseRest(Lower(input[..at]), input[at + 3..], isIpv6)
  }

  /** The normalized host and the port of an authority. */
  function ParseHost(authority: string, isIpv6: string -> bool): Option<(string, Option<nat>)> {
    if authority == [] || '@' in authority then None
    else
      var parsed := ParseAuthority(authority, isIpv6);
      if parsed.None? then None
      else
        var host := Lower(Trim(parsed.value.0, IsBracket));
        if host == [] || exists i :: 0 <= i < |host| && (IsControl(host[i]) || IsWhitespace(host[i])) then None
        else Some((host, parsed.value.1))
  }

  function PathOf(tail: string): string {
    var mark := Find(tail, IsQuestionMark);
    if mark == 0 then "/" else tail[..mark]
  }

  function QueryOf(tail: string): Option<string> {
    var mark := Find(tail, IsQuestionMark);
    if mark == |tail| then None else Some(tail[mark + 1..])
  }

  function TailOf(rest: string): string {
    var split := Find(rest, StartsPathOrQuery);
    if split == |rest| then "/" else rest[split..]
  }

  /** Parses what follows `scheme://`. */
  function ParseRest(scheme: string, rest: string, isIpv6: string -> bool): Option<UrlParts> {
    var host := ParseHost(rest[..Find(rest, StartsPathOrQuery)], isIpv6);
    if host.None? then None
    else Some(UrlParts(scheme, host.value.0, host.value.1, PathOf(TailOf(rest)), QueryOf(TailOf(rest))))
  }

  /** Adding a query to a URL without one changes its query and nothing else. */
  lemma QueryExtends(input: string, query: string, isIpv6: string -> bool)
    requires Parse(input, isIpv6).Some? && Parse(input, isIpv6).value.query.None? && '#' !in query
    ensures Parse(input + "?" + query, isIpv6) == Some(Parse(input, isIpv6).value.(query := Some(query)))
  {
    var at := FindText(input, "://").value;
    assert input + "?" + query == input + ("?" + query);
    FindTextExtends(input, "?" + query, "://");
    AtExtends(input, at, query, isIpv6);
  }

  lemma LongerParts(input: string, at: nat, query: string)
    requires at + 3 <= |input|
    ensures var longer := input + "?" + query;
      && longer[..at] == input[..at] && longer[at + 3..] == input[at + 3..] + "?" + query
      && ('#' in longer <==> '#' in input || '#' in query)
  {
  }

  lemma AtExtends(input: string, at: nat, query: string, isIpv6: string -> bool)
    requires at + 3 <= |input| && '#' !in query
    requires ParseAt(input, at, isIpv6).Some? && ParseAt(input, at, isIpv6).value.query.None?
    ensures ParseAt(input + "?" + query, at, isIpv6) == Some(ParseAt(input, at, isIpv6).value.(query := Some(query)))
  {
    LongerParts(input, at, query);
    RestExtends(Lower(input[..at]), input[at + 3..], query, isIpv6);
  }

  lemma RestExtends(scheme: string, rest: string, query: string, isIpv6: string -> bool)
    requires ParseRest(scheme, rest, isIpv6).Some? && ParseRest(scheme, rest, isIpv6).value.query.None?
    ensures ParseRest(scheme, rest + "?" + query, isIpv6)
         == Some(ParseRest(scheme, rest, isIpv6).value.(query := Some(query)))
  {
    var longer := rest + "?" + query;
    var split := Find(rest, StartsPathOrQuery);
    FindIs(longer, StartsPathOrQuery, split);
    assert longer[..split] == rest[..split];
    TailExtends(rest, query);
  }

  lemma TailExtends(rest: string, query: string)
    requires QueryOf(TailOf(rest)).None?
    ensures PathOf(TailOf(rest + "?" + query)) == PathOf(TailOf(rest))
    ensures QueryOf(TailOf(rest + "?" + query)) == Some(query)
  {
    var longer := rest + "?" + query;
    var split := Find(rest, StartsPathOrQuery);
    FindIs(longer, StartsPathOrQuery, split);
    var tail := if split == |rest| then "" else rest[split..];
    assert longer[split..] == tail + "?" + query;
    FindIs(tail + "?" + query, IsQuestionMark, |tail|);
    assert (tail + "?" + query)[..|tail|] == tail;
    assert (tail + "?" + query)[|tail| + 1..] == query;
    FindMissing(TailOf(rest), IsQuestionMark);
  }

  /** Letters, digits, dots and hyphens only. */
  predicate IsPlainHost(host: string) {
    host != [] && forall i :: 0 <= i < |host| ==> IsAsciiAlphanumeric(host[i]) || host[i] == '.' || host[i] == '-'
  }

  lemma PlainHostParses(host: string, isIpv6: string -> bool)
    requires IsPlainHost(host)
    ensures ParseHost(host, isIpv6) == Some((Lower(host), None))
  {
    assert Find(host, IsColon) == |host|;
    assert Trim(host, IsBracket) == host;
    forall i | 0 <= i < |Lower(host)|
      ensures !IsControl(Lower(host)[i]) && !IsWhitespace(Lower(host)[i])
    {
      assert Lower(host)[i] == LowerChar(host[i]);
    }
  }

  const HTTP := "http://"

  lemma SchemeIsFound(rest: string)
    ensures FindText(HTTP + rest, "://") == Some(4)
  {
    var url := HTTP + rest;
    assert url[4..4 + 3] == "://" && OccursAt("://", url, 4);
    var at := FindText(url, "://").value;
    assert url[at..at + 3][0] == url[at];
    assert url[0] == 'h' && url[1] == 't' && url[2] == 't' && url[3] == 'p';
  }

  /** How `http://host/` parses. */
  lemma PlainUrlParses(host: string, isIpv6: string -> bool)
    requires IsPlainHost(host)
    ensures Parse(HTTP + (host + "/"), isIpv6) == Some(UrlParts("http", Lower(host), None, "/", None))
  {
    var rest := host + "/";
    var url := HTTP + rest;
    SchemeIsFound(rest);
    assert url[..4] == "http" && url[4 + 3..] == rest;
    assert Lower("http") == "http" && ValidScheme("http");
    assert '#' !in url;
    PlainRestParses(host, isIpv6);
  }

  lemma PlainRestParses(host: string, isIpv6: string -> bool)
    requires IsPlainHost(host)
    ensures ParseRest("http", host + "/", isIpv6) == Some(UrlParts("http", Lower(host), None, "/", None))
  {
    var rest := host + "/";
    FindIs(rest, StartsPathOrQuery, |host|);
    assert rest[..|host|] == host && rest[|host|..] == "/";
    PlainHostParses(host, isIpv6);
    assert Find("/", IsQuestionMark) == 1 && "/"[..1] == "/";
  }
}
