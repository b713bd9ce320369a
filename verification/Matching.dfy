/**
 The meaning of matchers and conditions, stated directly on patterns and texts.
 The compiled forms used at run time are proved equal to these.
 */
module Matching {
  import opened Text
  import opened Model
  import opened Glob

  // ---------------------------------------------------------------------------
  // URL matchers

  function NormalizeHost(host: string): string {
    Lower(Trim(host, IsBracket))
  }

  /** The labels of `host` in front of `.base`, when it ends that way. */
  function DottedSuffixPrefix(host: string, base: string): Option<string> {
    if !EndsWith(host, base) then None
    else
      var labels := host[..|host| - |base|];
      if labels != [] && labels[|labels| - 1] == '.' then Some(labels[..|labels| - 1]) else None
  }

  /** How a host pattern other than a general glob treats a host, when it is one. */
  function SpecialHostMatch(pattern: string, host: string): Option<bool> {
    if pattern == "**" || pattern == "*" then Some(true)
    else if "**." <= pattern then
      Some(host == pattern[3..] || DottedSuffixPrefix(host, pattern[3..]).Some?)
    else if "*." <= pattern then
      var labels := DottedSuffixPrefix(host, pattern[2..]);
      Some(labels.Some? && labels.value != [] && '.' !in labels.value)
    else if !GlobActive(pattern) then Some(pattern == host)
    else None
  }

  /**
   A host pattern matches a host; `glob` is the spelling under which a general
   glob pattern is registered.
   */
  predicate HostMatches(pattern: string, glob: string, host: string) {
    match SpecialHostMatch(NormalizeHost(pattern), NormalizeHost(host))
    case Some(matches) => matches
    case None => Accepts(glob, '.', NormalizeHost(host))
  }

  predicate HostPatternUsesRegex(pattern: string) {
    var p := Trim(pattern, IsBracket);
    GlobActive(p) && p != "*" && p != "**" && !("*." <= p) && !("**." <= p)
  }

  predicate PathPrefixMatches(pattern: string, path: string) {
    || pattern == "/"
    || path == pattern
    || (pattern <= path && (EndsWith(pattern, "/") || (|pattern| < |path| && path[|pattern|] == '/')))
  }

  function FirstNine(texts: seq<string>): seq<string> {
    if |texts| <= MAX_CAPTURES then texts else texts[..MAX_CAPTURES]
  }

  predicate PortMatches(port: Option<string>, url: UrlParts) {
    port.None? || (url.EffectivePort().Some? && Accepts(port.value, '.', Decimal(url.EffectivePort().value)))
  }

  function PathCaptures(path: Option<string>, url: UrlParts): Option<seq<string>> {
    if path.None? then Some([])
    else if GlobActive(path.value) then Capture(path.value, '/', url.path)
    else if PathPrefixMatches(path.value, url.path) then Some([])
    else None
  }

  function QueryCaptures(query: Option<string>, url: UrlParts): Option<seq<string>> {
    if query.None? then Some([])
    else Capture(query.value, '&', if url.query.Some? then url.query.value else "")
  }

  /** A glob matches when every component it names does; wildcards of path and query are captured. */
  function GlobMatch(glob: GlobMatcher, url: UrlParts): Option<Captures> {
    if glob.scheme.Some? && !EqIgnoreCase(glob.scheme.value, url.scheme) then None
    else if !HostMatches(glob.host, glob.host, url.host) then None
    else if !PortMatches(glob.port, url) then None
    else
      var path := PathCaptures(glob.path, url);
      var query := QueryCaptures(glob.query, url);
      if path.None? || query.None? then None
      else Some(NO_CAPTURES.(indexed := FirstNine(path.value + query.value)))
  }

  predicate ExactUrlMatches(w: World, expected: string, url: UrlParts) {
    var parsed := w.parse(expected);
    && parsed.Some?
    && parsed.value.scheme == url.scheme
    && parsed.value.host == url.host
    && parsed.value.EffectivePort() == url.EffectivePort()
    && parsed.value.path == url.path
    && (parsed.value.query.None? || parsed.value.query == url.query)
  }

  function MatcherMatch(w: World, m: Matcher, url: UrlParts, raw: string): Option<Captures> {
    match m
    case ExactUrl(expected) => if ExactUrlMatches(w, expected, url) then Some(NO_CAPTURES) else None
    case Glob(glob) => GlobMatch(glob, url)
    case Port(port) => if url.EffectivePort() == Some(port) then Some(NO_CAPTURES) else None
    case Regex(regex) => w.search(regex, raw)
    case NotMatcher(inner) => if MatcherMatch(w, inner, url, raw).None? then Some(NO_CAPTURES) else None
  }

  // ---------------------------------------------------------------------------
  // Conditions

  /** What a condition is judged against. */
  datatype Context = Context(url: Option<UrlParts>, req: Request, res: Option<Response>, line: nat)

  function Header(headers: seq<(string, string)>, name: string): Option<string> {
    if headers == [] then None
    else if EqIgnoreCase(headers[0].0, name) then Some(headers[0].1)
    else Header(headers[1..], name)
  }

  predicate HeaderHas(headers: seq<(string, string)>, name: string, value: string) {
    var actual := Header(headers, name);
    actual.Some? && OccursIgnoreCase(value, actual.value)
  }

  function NormalizeIp(w: World, value: string): string {
    var socket := w.socketIp(value);
    if socket.Some? then socket.value else Trim(Trim(value, IsWhitespace), IsBracket)
  }

  predicate IpMatches(w: World, pattern: string, actual: string) {
    var p := NormalizeIp(w, pattern);
    || p == "*" || p == "**"
    || if GlobActive(p) then Accepts(p, '\0', actual) else EqIgnoreCase(p, actual)
  }

  predicate AnyIpMatches(w: World, patterns: seq<string>, ip: Option<string>) {
    ip.Some? && exists i :: 0 <= i < |patterns| && IpMatches(w, patterns[i], NormalizeIp(w, ip.value))
  }

  predicate Chance(w: World, req: Request, line: nat, permille: nat) {
    permille >= 1000 || (permille != 0 && w.sample(req.url, req.method_, line) % 1000 < permille)
  }

  predicate Holds(w: World, c: Condition, x: Context)
    decreases c
  {
    match c
    case Method(methods) => exists i :: 0 <= i < |methods| && EqIgnoreCase(methods[i], x.req.method_)
    case HostIs(pattern) => x.url.Some? && HostMatches(pattern, Lower(pattern), x.url.value.host)
    case UrlGlob(pattern) =>
      if GlobActive(pattern) then Accepts(pattern, '\0', x.req.url) else pattern == x.req.url
    case UrlRegex(regex) => w.search(regex, x.req.url).Some?
    case ClientIp(patterns) => AnyIpMatches(w, patterns, x.req.clientIp)
    case ServerIp(patterns) => AnyIpMatches(w, patterns, x.req.serverIp)
    case HeaderPresent(name) => Header(x.req.headers, name).Some?
    case HeaderContains(name, value) => HeaderHas(x.req.headers, name, value)
    case ResHeaderPresent(name) => x.res.Some? && Header(x.res.value.headers, name).Some?
    case ResHeaderContains(name, value) => x.res.Some? && HeaderHas(x.res.value.headers, name, value)
    case BodyContains(literal) => OccursIgnoreCase(literal, w.decode(x.req.body))
    case BodyRegex(regex) => w.search(regex, w.decode(x.req.body)).Some?
    case StatusIs(statuses) => x.res.Some? && x.res.value.status in statuses
    case ChancePermille(permille) => Chance(w, x.req, x.line, permille)
    case EnvPresent(name) => w.env(name).Some?
    case EnvEquals(name, value) => w.env(name) == Some(value)
    case Any(cs) => exists i :: 0 <= i < |cs| && Holds(w, cs[i], x)
    case All(cs) => forall i :: 0 <= i < |cs| ==> Holds(w, cs[i], x)
    case Not(inner) => !(x.res.None? && DependsOnResponse(inner)) && !Holds(w, inner, x)
  }

  predicate AllHold(w: World, cs: seq<Condition>, x: Context) {
    forall i :: 0 <= i < |cs| ==> Holds(w, cs[i], x)
  }

  /** A condition that names neither body nor response is judged the same with any of them. */
  lemma {:induction false} HoldsIgnoresUnused(w: World, c: Condition, x: Context, y: Context)
    requires x.url == y.url && x.line == y.line && y.req.(body := x.req.body) == x.req
    requires DependsOnRequestBody(c) ==> x.req.body == y.req.body
    requires DependsOnResponse(c) ==> x.res == y.res
    ensures Holds(w, c, x) == Holds(w, c, y)
    decreases c
  {
    match c
    case Any(cs) =>
      forall i | 0 <= i < |cs| {
        HoldsIgnoresUnused(w, cs[i], x, y);
      }
    case All(cs) =>
      forall i | 0 <= i < |cs| {
        HoldsIgnoresUnused(w, cs[i], x, y);
      }
    case Not(inner) => HoldsIgnoresUnused(w, inner, x, y);
    case _ =>
  }
}
