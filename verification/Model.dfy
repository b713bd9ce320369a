/**
 The data model of the rule engine: rules, matchers, conditions, requests,
 resolution results, and the primitives the engine takes from its libraries
 and its process.
 */
module Model {
  import opened Text
  import opened Actions
  import opened RegexLiteral

  datatype UrlParts = UrlParts(
    scheme: string,
    host: string,
    port: Option<nat>,
    path: string,
    query: Option<string>)
  {
    /** The explicit port, or the default of an HTTP or WebSocket scheme. */
    function EffectivePort(): Option<nat> {
      if port.Some? then port
      else if scheme == "http" || scheme == "ws" then Some(80)
      else if scheme == "https" || scheme == "wss" then Some(443)
      else None
    }
  }

  datatype GlobMatcher = GlobMatcher(
    scheme: Option<string>,
    host: string,
    port: Option<string>,
    path: Option<string>,
    query: Option<string>)

  datatype Matcher =
    | ExactUrl(url: string)
    | Glob(glob: GlobMatcher)
    | Port(port: nat)
    | Regex(regex: RegexMatcher)
    | NotMatcher(inner: Matcher)

  datatype Condition =
    | Method(methods: seq<string>)
    | HostIs(pattern: string)
    | UrlGlob(pattern: string)
    | UrlRegex(regex: RegexMatcher)
    | ClientIp(patterns: seq<string>)
    | ServerIp(patterns: seq<string>)
    | HeaderPresent(name: string)
    | HeaderContains(name: string, value: string)
    | ResHeaderPresent(name: string)
    | ResHeaderContains(name: string, value: string)
    | BodyContains(literal: string)
    | BodyRegex(regex: RegexMatcher)
    | StatusIs(statuses: seq<nat>)
    | ChancePermille(permille: nat)
    | EnvPresent(name: string)
    | EnvEquals(name: string, value: string)
    | Any(children: seq<Condition>)
    | All(children: seq<Condition>)
    | Not(inner: Condition)

  datatype Rule = Rule(
    group: string,
    line: nat,
    raw: string,
    matcher: Matcher,
    actions: seq<Action>,
    conditions: seq<Condition>,
    important: bool,
    disabled: bool)

  datatype Request = Request(
    method_: string,
    url: string,
    headers: seq<(string, string)>,
    body: seq<bv8>,
    clientIp: Option<string>,
    serverIp: Option<string>)

  datatype Response = Response(status: nat, headers: seq<(string, string)>)

  datatype Captures = Captures(whole: Option<string>, indexed: seq<string>, named: map<string, string>)

  const NO_CAPTURES := Captures(None, [], map[])

  datatype MatchedRule = MatchedRule(group: string, line: nat, raw: string)

  datatype ResolvedAction = ResolvedAction(
    action: Action,
    rule: MatchedRule,
    captures: Captures,
    response: Option<Response>)

  datatype ResolveResult = ResolveResult(actions: seq<ResolvedAction>, matched: seq<MatchedRule>)

  /**
   What the engine takes from outside: the URL parser, the regex engine with its
   zero-width assertions and size limit, multi-literal scanning (whether a scanner
   for the literals builds; the ids of the literals found, in order of discovery and
   possibly repeated; the flag asks for ASCII case to be ignored), lossy UTF-8
   decoding, the process environment, socket-address parsing and the sampling hash.
   Each is an arbitrary function, so every theorem holds for all of them that satisfy
   `Lawful`.
   */
  datatype World = World(
    parse: string -> Option<UrlParts>,
    search: (RegexMatcher, string) -> Option<Captures>,
    looks: (nat, string, nat) -> bool,
    fits: string -> bool,
    scanBuilds: seq<string> -> bool,
    bodyScanBuilds: set<string> -> bool,
    scan: (bool, seq<string>, string) -> seq<nat>,
    decode: seq<bv8> -> string,
    env: string -> Option<string>,
    socketIp: string -> Option<string>,
    sample: (string, string, nat) -> nat)
  {
    /** A match reported by the regex engine is one of the pattern's syntax tree. */
    ghost predicate SearchIsSound() {
      forall regex, text ::
        search(regex, text).Some? && regex.syntax.Some? && !regex.caseInsensitive
        ==> Finds(regex.syntax.value, looks, text)
    }

    /** Socket addresses and the addresses in them never hold glob syntax. */
    ghost predicate SocketsAreLiteral() {
      forall value :: socketIp(value).Some?
        ==> !GlobActive(value) && !GlobActive(socketIp(value).value)
    }

    /** Scanning reports exactly the literals that occur in the text. */
    ghost predicate ScanIsExact() {
      forall ignoreCase, literals, text, id ::
        id in scan(ignoreCase, literals, text) <==>
        && 0 <= id < |literals|
        && if ignoreCase then OccursIgnoreCase(literals[id], text) else Occurs(literals[id], text)
    }

    ghost predicate Lawful() {
      SearchIsSound() && SocketsAreLiteral() && ScanIsExact()
    }
  }

  /** Whether a pattern uses glob syntax rather than being a literal. */
  predicate GlobActive(pattern: string) {
    '*' in pattern || '\\' in pattern
  }

  predicate DependsOnRequestBody(c: Condition) {
    match c
    case BodyContains(_) => true
    case BodyRegex(_) => true
    case Any(cs) => exists i :: 0 <= i < |cs| && DependsOnRequestBody(cs[i])
    case All(cs) => exists i :: 0 <= i < |cs| && DependsOnRequestBody(cs[i])
    case Not(inner) => DependsOnRequestBody(inner)
    case _ => false
  }

  predicate DependsOnResponse(c: Condition) {
    match c
    case ResHeaderPresent(_) => true
    case ResHeaderContains(_, _) => true
    case StatusIs(_) => true
    case Any(cs) => exists i :: 0 <= i < |cs| && DependsOnResponse(cs[i])
    case All(cs) => exists i :: 0 <= i < |cs| && DependsOnResponse(cs[i])
    case Not(inner) => DependsOnResponse(inner)
    case _ => false
  }
}
