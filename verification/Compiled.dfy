/**
 Resources compiled once per snapshot, the ids bound to matchers and conditions, and
 the proof that evaluating by ids is evaluating the patterns.
 */
module Compiled {
  import opened Text
  import opened Model
  import opened Glob
  import opened Matching

  // ---------------------------------------------------------------------------
  // Glob programs

  type PatternKey = (char, string)

  /** Programs of the registered patterns. */
  datatype GlobSet = GlobSet(ids: map<PatternKey, nat>, programs: seq<string>)
  {
    predicate Sound() {
      forall key {:trigger ids[key]} :: key in ids ==>
        ids[key] < |programs| && Source(key.1, key.0) == Some(programs[ids[key]])
    }

    function Id(pattern: string, sep: char): Option<nat> {
      if (sep, pattern) in ids then Some(ids[(sep, pattern)]) else None
    }

    function RunId(id: Option<nat>, text: string): Option<seq<string>> {
      if id.None? || id.value >= |programs| then None else RunCompiled(programs[id.value], text)
    }
  }

  /** Running a registered pattern's program is matching the pattern. */
  lemma RunIdIsMatch(globs: GlobSet, pattern: string, sep: char, text: string)
    requires globs.Sound() && (sep, pattern) in globs.ids
    ensures globs.RunId(globs.Id(pattern, sep), text) == Numbered(Capture(pattern, sep, text), 0)
    ensures globs.RunId(globs.Id(pattern, sep), text).Some? <==> Accepts(pattern, sep, text)
  {
    CompilationPreservesMeaning(pattern, sep, text);
  }

  predicate Compiles(w: World, key: PatternKey) {
    Source(key.1, key.0).Some? && w.fits(Source(key.1, key.0).value)
  }

  function OptionalKey(needed: bool, sep: char, pattern: string): seq<PatternKey> {
    if needed then [(sep, pattern)] else []
  }

  /** The patterns a matcher needs programs for. */
  function MatcherKeys(m: Matcher): seq<PatternKey> {
    match m
    case Glob(glob) =>
      OptionalKey(HostPatternUsesRegex(glob.host), '.', glob.host)
      + (if glob.port.Some? then [('.', glob.port.value)] else [])
      + (if glob.path.Some? then OptionalKey(GlobActive(glob.path.value), '/', glob.path.value) else [])
      + (if glob.query.Some? then [('&', glob.query.value)] else [])
    case NotMatcher(inner) => MatcherKeys(inner)
    case _ => []
  }

  predicate IpPatternUsesRegex(pattern: string) {
    GlobActive(pattern) && pattern != "*" && pattern != "**"
  }

  function IpKeys(w: World, patterns: seq<string>): seq<PatternKey> {
    if patterns == [] then []
    else OptionalKey(IpPatternUsesRegex(patterns[0]), '\0', NormalizeIp(w, patterns[0])) + IpKeys(w, patterns[1..])
  }

  /** The patterns a condition tree needs programs for, in the order its nodes are visited. */
  function ConditionKeys(w: World, c: Condition): seq<PatternKey>
    decreases c, 0
  {
    match c
    case HostIs(pattern) => OptionalKey(HostPatternUsesRegex(pattern), '.', Lower(pattern))
    case UrlGlob(pattern) => OptionalKey(GlobActive(pattern), '\0', pattern)
    case ClientIp(patterns) => IpKeys(w, patterns)
    case ServerIp(patterns) => IpKeys(w, patterns)
    case Any(cs) => ConditionsKeys(w, cs)
    case All(cs) => ConditionsKeys(w, cs)
    case Not(inner) => ConditionKeys(w, inner)
    case _ => []
  }

  function ConditionsKeys(w: World, cs: seq<Condition>): seq<PatternKey>
    decreases cs, 1
  {
    if cs == [] then [] else ConditionKeys(w, cs[0]) + ConditionsKeys(w, cs[1..])
  }

  function RuleKeys(w: World, rule: Rule): seq<PatternKey> {
    MatcherKeys(rule.matcher) + ConditionsKeys(w, rule.conditions)
  }

  predicate AllCompile(w: World, keys: seq<PatternKey>) {
    forall i :: 0 <= i < |keys| ==> Compiles(w, keys[i])
  }

  predicate Registered(ids: map<PatternKey, nat>, keys: seq<PatternKey>) {
    forall i :: 0 <= i < |keys| ==> keys[i] in ids
  }

  /** Every registered pattern has its own program, and the programs are within the size limit. */
  predicate Built(w: World, globs: GlobSet) {
    globs.Sound() && |globs.programs| == |globs.ids| && forall key :: key in globs.ids ==> Compiles(w, key)
  }

  /** Adds a pattern's program unless it already has one; `None` stands for the panic of a pattern without one. */
  method Register(w: World, globs: GlobSet, key: PatternKey) returns (r: Option<GlobSet>)
    requires Built(w, globs)
    ensures r.Some? <==> Compiles(w, key)
    ensures r.Some? ==> Built(w, r.value) && key in r.value.ids && globs.ids.Keys <= r.value.ids.Keys
  {
    if key in globs.ids {
      return Some(globs);
    }
    var source := CompileSource(key.1, key.0);
    if source.None? || !w.fits(source.value) {
      return None;
    }
    r := Some(GlobSet(globs.ids[key := |globs.programs|], globs.programs + [source.value]));
  }

  method RegisterAll(w: World, globs: GlobSet, keys: seq<PatternKey>) returns (r: Option<GlobSet>)
    requires Built(w, globs)
    ensures r.Some? <==> AllCompile(w, keys)
    ensures r.Some? ==> Built(w, r.value) && Registered(r.value.ids, keys) && globs.ids.Keys <= r.value.ids.Keys
  {
    var added := globs;
    for i := 0 to |keys|
      invariant Built(w, added) && globs.ids.Keys <= added.ids.Keys
      invariant Registered(added.ids, keys[..i])
      invariant AllCompile(w, keys[..i])
    {
      var more := Register(w, added, keys[i]);
      if more.None? {
        return None;
      }
      OneMoreRegistered(added.ids, more.value.ids, keys, i);
      added := more.value;
    }
    assert keys[..|keys|] == keys;
    r := Some(added);
  }

  lemma OneMoreRegistered(ids: map<PatternKey, nat>, more: map<PatternKey, nat>, keys: seq<PatternKey>, i: nat)
    requires i < |keys| && Registered(ids, keys[..i]) && ids.Keys <= more.Keys && keys[i] in more
    ensures Registered(more, keys[..i + 1])
  {
    forall k | 0 <= k < i
      ensures keys[k] in more
    {
      assert keys[..i][k] in ids.Keys;
    }
  }

  predicate RulesRegistered(w: World, ids: map<PatternKey, nat>, rules: seq<Rule>) {
    forall r :: 0 <= r < |rules| ==> Registered(ids, RuleKeys(w, rules[r]))
  }

  predicate SnapshotCompiles(w: World, rules: seq<Rule>) {
    forall r :: 0 <= r < |rules| ==> AllCompile(w, RuleKeys(w, rules[r]))
  }

  /** Compiles every pattern of a snapshot, once; it panics exactly if some pattern does not compile. */
  method BuildGlobSet(w: World, rules: seq<Rule>) returns (globs: Option<GlobSet>)
    ensures globs.Some? <==> SnapshotCompiles(w, rules)
    ensures globs.Some? ==> Built(w, globs.value) && RulesRegistered(w, globs.value.ids, rules)
  {
    var built := GlobSet(map[], []);
    for n := 0 to |rules|
      invariant Built(w, built)
      invariant RulesRegistered(w, built.ids, rules[..n])
      invariant SnapshotCompiles(w, rules[..n])
    {
      var more := RegisterAll(w, built, RuleKeys(w, rules[n]));
      if more.None? {
        return None;
      }
      OneMoreRuleRegistered(w, built.ids, more.value.ids, rules, n);
      built := more.value;
    }
    assert rules[..|rules|] == rules;
    globs := Some(built);
  }

  lemma OneMoreRuleRegistered(w: World, ids: map<PatternKey, nat>, more: map<PatternKey, nat>, rules: seq<Rule>, n: nat)
    requires n < |rules| && RulesRegistered(w, ids, rules[..n]) && ids.Keys <= more.Keys
    requires Registered(more, RuleKeys(w, rules[n]))
    ensures RulesRegistered(w, more, rules[..n + 1])
  {
    forall r | 0 <= r < n
      ensures Registered(more, RuleKeys(w, rules[r]))
    {
      assert rules[..n][r] == rules[r];
      RegisteredGrows(ids, more, RuleKeys(w, rules[r]));
    }
    assert forall r :: 0 <= r <= n ==> rules[..n + 1][r] == rules[r];
  }

  lemma RegisteredGrows(ids: map<PatternKey, nat>, more: map<PatternKey, nat>, keys: seq<PatternKey>)
    requires Registered(ids, keys) && ids.Keys <= more.Keys
    ensures Registered(more, keys)
  {
    forall i | 0 <= i < |keys|
      ensures keys[i] in more
    {
      assert keys[i] in ids.Keys;
    }
  }

  // ---------------------------------------------------------------------------
  // Body literals

  /** Distinct literals in lower case, and the id of each literal as written. */
  datatype BodySet = BodySet(literals: seq<string>, ids: map<string, nat>)
  {
    ghost predicate CoversLiterals(source: set<string>) {
      && ids.Keys == source
      && forall l :: l in source ==> ids[l] < |literals| && literals[ids[l]] == Lower(l)
    }
  }

  function BodyLiterals(c: Condition): set<string>
    decreases c, 0
  {
    match c
    case BodyContains(literal) => {literal}
    case Any(cs) => AllBodyLiterals(cs)
    case All(cs) => AllBodyLiterals(cs)
    case Not(inner) => BodyLiterals(inner)
    case _ => {}
  }

  function AllBodyLiterals(cs: seq<Condition>): set<string>
    decreases cs, 1
  {
    if cs == [] then {} else BodyLiterals(cs[0]) + AllBodyLiterals(cs[1..])
  }

  function SnapshotLiterals(rules: seq<Rule>): set<string> {
    if rules == [] then {}
    else SnapshotLiterals(rules[..|rules| - 1]) + AllBodyLiterals(rules[|rules| - 1].conditions)
  }

  /** `ids` numbers exactly the listed literals, each by its position. */
  predicate Numbers(literals: seq<string>, ids: map<string, nat>) {
    && (forall n :: n in ids ==> ids[n] < |literals| && literals[ids[n]] == n)
    && forall i :: 0 <= i < |literals| ==> literals[i] in ids && ids[literals[i]] == i
  }

  lemma OneMoreNumbered(literals: seq<string>, ids: map<string, nat>, next: string)
    requires Numbers(literals, ids) && next !in ids
    ensures Numbers(literals + [next], ids[next := |literals|])
  {
  }

  method NumberLiterals(lowered: set<string>) returns (literals: seq<string>, ids: map<string, nat>)
    ensures Numbers(literals, ids) && ids.Keys == lowered
  {
    var pending := lowered;
    literals, ids := [], map[];
    while pending != {}
      invariant Numbers(literals, ids) && pending !! ids.Keys && pending + ids.Keys == lowered
      decreases pending
    {
      var next :| next in pending;
      OneMoreNumbered(literals, ids, next);
      pending := pending - {next};
      ids := ids[next := |literals|];
      literals := literals + [next];
    }
  }

  function Lowered(source: set<string>): set<string> {
    set l | l in source :: Lower(l)
  }

  /** No automaton is needed without literals, and otherwise it can be built. */
  predicate LiteralsBuild(w: World, source: set<string>) {
    source == {} || w.bodyScanBuilds(Lowered(source))
  }

  /** The literals are distinct and are the lower-case forms of the source's. */
  predicate AreLowered(literals: seq<string>, source: set<string>) {
    && (forall i, j :: 0 <= i < j < |literals| ==> literals[i] != literals[j])
    && forall i :: 0 <= i < |literals| ==> literals[i] in Lowered(source)
  }

  /** Numbers the literals of a snapshot; `None` stands for the panic when no automaton can be built for them. */
  method FromLiterals(w: World, source: set<string>) returns (bodies: Option<BodySet>)
    ensures bodies.Some? <==> LiteralsBuild(w, source)
    ensures bodies.Some? ==> bodies.value.CoversLiterals(source) && AreLowered(bodies.value.literals, source)
  {
    var lowered := Lowered(source);
    var literals, normalized := NumberLiterals(lowered);
    if source != {} && !w.bodyScanBuilds(lowered) {
      return None;
    }
    forall l | l in source
      ensures Lower(l) in normalized
    {
      assert Lower(l) in lowered;
    }
    forall i | 0 <= i < |literals|
      ensures literals[i] in lowered
    {
      assert literals[i] in normalized.Keys;
    }
    bodies := Some(BodySet(literals, map l | l in source :: normalized[Lower(l)]));
  }

  /** Which literals occur in the text, stopping once all of them have been found. */
  method Scan(w: World, bodies: BodySet, text: string) returns (matched: seq<bool>)
    requires w.ScanIsExact()
    ensures |matched| == |bodies.literals|
    ensures forall id :: 0 <= id < |matched| ==> matched[id] == OccursIgnoreCase(bodies.literals[id], text)
  {
    var count := |bodies.literals|;
    matched := seq(count, i => false);
    if count == 0 {
      return;
    }
    var hits := w.scan(true, bodies.literals, text);
    var remaining := count;
    AllUnmatched(matched);
    for h := 0 to |hits|
      invariant |matched| == count
      invariant 0 < remaining == Unmatched(matched)
      invariant forall i :: 0 <= i < count && matched[i] ==> i in hits
      invariant forall k :: 0 <= k < h ==> hits[k] < count && matched[hits[k]]
    {
      assert hits[h] in hits;
      if !matched[hits[h]] {
        UnmatchedAfter(matched, hits[h]);
        matched := matched[hits[h] := true];
        remaining := remaining - 1;
        if remaining == 0 {
          NoneUnmatched(matched);
          return;
        }
      }
    }
    forall i | 0 <= i < count && i in hits
      ensures matched[i]
    {
      var k :| 0 <= k < |hits| && hits[k] == i;
    }
  }

  function Unmatched(matched: seq<bool>): nat {
    if matched == [] then 0 else (if matched[0] then 0 else 1) + Unmatched(matched[1..])
  }

  lemma AllUnmatched(matched: seq<bool>)
    requires forall i :: 0 <= i < |matched| ==> !matched[i]
    ensures Unmatched(matched) == |matched|
  {
  }

  lemma NoneUnmatched(matched: seq<bool>)
    requires Unmatched(matched) == 0
    ensures forall i :: 0 <= i < |matched| ==> matched[i]
  {
  }

  lemma UnmatchedAfter(matched: seq<bool>, at: nat)
    requires at < |matched| && !matched[at]
    ensures Unmatched(matched[at := true]) == Unmatched(matched) - 1
  {
    if at > 0 {
      UnmatchedAfter(matched[1..], at - 1);
      assert matched[at := true][1..] == matched[1..][at - 1 := true];
    }
  }

  /** Looking a literal's id up in a scan is searching for the literal, ignoring ASCII case. */
  lemma ScanAgreesWithSearch(bodies: BodySet, source: set<string>, matched: seq<bool>, text: string, literal: string)
    requires bodies.CoversLiterals(source) && literal in source
    requires |matched| == |bodies.literals|
    requires forall id :: 0 <= id < |matched| ==> matched[id] == OccursIgnoreCase(bodies.literals[id], text)
    ensures matched[bodies.ids[literal]] <==> OccursIgnoreCase(literal, text)
  {
    LowerIdempotent(literal);
  }

  // ---------------------------------------------------------------------------
  // Ids bound to matchers and conditions

  datatype MatcherResources =
    | NoMatcherResources
    | GlobResources(host: Option<nat>, port: Option<nat>, path: Option<nat>, query: Option<nat>)
    | NotMatcherResources(inner: MatcherResources)

  datatype ConditionResources =
    | NoResources
    | HostResources(host: Option<nat>)
    | UrlGlobResources(url: Option<nat>)
    | IpResources(ips: seq<Option<nat>>)
    | BodyResources(body: nat)
    | Children(children: seq<ConditionResources>)
    | NotResources(inner: ConditionResources)

  function OptionalId(globs: GlobSet, pattern: Option<string>, sep: char): Option<nat> {
    if pattern.Some? then globs.Id(pattern.value, sep) else None
  }

  function BindMatcher(m: Matcher, globs: GlobSet): MatcherResources {
    match m
    case Glob(glob) =>
      GlobResources(
        if HostPatternUsesRegex(glob.host) then globs.Id(glob.host, '.') else None,
        OptionalId(globs, glob.port, '.'),
        if glob.path.Some? && GlobActive(glob.path.value) then globs.Id(glob.path.value, '/') else None,
        OptionalId(globs, glob.query, '&'))
    case NotMatcher(inner) => NotMatcherResources(BindMatcher(inner, globs))
    case _ => NoMatcherResources
  }

  function BindIps(w: World, patterns: seq<string>, globs: GlobSet): seq<Option<nat>> {
    seq(|patterns|, i requires 0 <= i < |patterns| => globs.Id(NormalizeIp(w, patterns[i]), '\0'))
  }

  function BindCondition(w: World, c: Condition, globs: GlobSet, bodies: BodySet): ConditionResources
    requires BodyLiterals(c) <= bodies.ids.Keys
    decreases c, 0
  {
    match c
    case HostIs(pattern) =>
      HostResources(if HostPatternUsesRegex(pattern) then globs.Id(Lower(pattern), '.') else None)
    case UrlGlob(pattern) => UrlGlobResources(if GlobActive(pattern) then globs.Id(pattern, '\0') else None)
    case ClientIp(patterns) => IpResources(BindIps(w, patterns, globs))
    case ServerIp(patterns) => IpResources(BindIps(w, patterns, globs))
    case BodyContains(literal) => BodyResources(bodies.ids[literal])
    case Any(cs) => Children(BindConditions(w, cs, globs, bodies))
    case All(cs) => Children(BindConditions(w, cs, globs, bodies))
    case Not(inner) => NotResources(BindCondition(w, inner, globs, bodies))
    case _ => NoResources
  }

  function BindConditions(w: World, cs: seq<Condition>, globs: GlobSet, bodies: BodySet): (r: seq<ConditionResources>)
    requires AllBodyLiterals(cs) <= bodies.ids.Keys
    ensures |r| == |cs|
    decreases cs, 1
  {
    if cs == [] then []
    else [BindCondition(w, cs[0], globs, bodies)] + BindConditions(w, cs[1..], globs, bodies)
  }

  // ---------------------------------------------------------------------------
  // Evaluation with bound ids

  predicate HostMatchesId(globs: GlobSet, pattern: string, host: string, id: Option<nat>) {
    match SpecialHostMatch(NormalizeHost(pattern), NormalizeHost(host))
    case Some(matches) => matches
    case None => globs.RunId(id, NormalizeHost(host)).Some?
  }

  /** Adds groups up to the ninth capture. */
  function AppendCaptures(indexed: seq<string>, groups: seq<string>): seq<string> {
    var room := if |indexed| >= MAX_CAPTURES then 0 else MAX_CAPTURES - |indexed|;
    indexed + if |groups| <= room then groups else groups[..room]
  }

  predicate PortMatchesId(port: Option<string>, url: UrlParts, globs: GlobSet, id: Option<nat>) {
    port.None? || (url.EffectivePort().Some? && globs.RunId(id, Decimal(url.EffectivePort().value)).Some?)
  }

  function PathGroups(path: Option<string>, url: UrlParts, globs: GlobSet, id: Option<nat>): Option<seq<string>> {
    if path.None? then Some([])
    else if GlobActive(path.value) then globs.RunId(id, url.path)
    else if PathPrefixMatches(path.value, url.path) then Some([])
    else None
  }

  function QueryGroups(query: Option<string>, url: UrlParts, globs: GlobSet, id: Option<nat>): Option<seq<string>> {
    if query.None? then Some([])
    else globs.RunId(id, if url.query.Some? then url.query.value else "")
  }

  function GlobMatchCompiled(glob: GlobMatcher, url: UrlParts, globs: GlobSet, r: MatcherResources): Option<Captures> {
    if !r.GlobResources? then None
    else if glob.scheme.Some? && !EqIgnoreCase(glob.scheme.value, url.scheme) then None
    else if !HostMatchesId(globs, glob.host, url.host, r.host) then None
    else if !PortMatchesId(glob.port, url, globs, r.port) then None
    else
      var path := PathGroups(glob.path, url, globs, r.path);
      var query := QueryGroups(glob.query, url, globs, r.query);
      if path.None? || query.None? then None
      else Some(NO_CAPTURES.(indexed := AppendCaptures(AppendCaptures([], path.value), query.value)))
  }

  function MatchCompiled(w: World, m: Matcher, url: UrlParts, raw: string, globs: GlobSet,
                         r: MatcherResources): Option<Captures>
    decreases m
  {
    match m
    case ExactUrl(expected) => if ExactUrlMatches(w, expected, url) then Some(NO_CAPTURES) else None
    case Glob(glob) => GlobMatchCompiled(glob, url, globs, r)
    case Port(port) => if url.EffectivePort() == Some(port) then Some(NO_CAPTURES) else None
    case Regex(regex) => w.search(regex, raw)
    case NotMatcher(inner) =>
      if !r.NotMatcherResources? then None
      else if MatchCompiled(w, inner, url, raw, globs, r.inner).None? then Some(NO_CAPTURES) else None
  }

  predicate IpMatchesId(w: World, globs: GlobSet, pattern: string, actual: string, id: Option<nat>) {
    var p := NormalizeIp(w, pattern);
    || p == "*" || p == "**"
    || if GlobActive(p) then globs.RunId(id, actual).Some? else EqIgnoreCase(p, actual)
  }

  predicate AnyIpMatchesId(w: World, globs: GlobSet, patterns: seq<string>, ip: Option<string>, r: ConditionResources) {
    ip.Some? && r.IpResources? && exists i ::
      0 <= i < |patterns| && i < |r.ips| && IpMatchesId(w, globs, patterns[i], NormalizeIp(w, ip.value), r.ips[i])
  }

  /** Evaluates a condition with its bound ids and one scan of the request body. */
  predicate HoldsCompiled(w: World, c: Condition, r: ConditionResources, x: Context, globs: GlobSet, matched: seq<bool>)
    decreases c, 0
  {
    match c
    case HostIs(pattern) =>
      r.HostResources? && x.url.Some? && HostMatchesId(globs, pattern, x.url.value.host, r.host)
    case UrlGlob(pattern) =>
      if GlobActive(pattern) then r.UrlGlobResources? && globs.RunId(r.url, x.req.url).Some?
      else pattern == x.req.url
    case ClientIp(patterns) => AnyIpMatchesId(w, globs, patterns, x.req.clientIp, r)
    case ServerIp(patterns) => AnyIpMatchesId(w, globs, patterns, x.req.serverIp, r)
    case BodyContains(_) => r.BodyResources? && r.body < |matched| && matched[r.body]
    case Any(cs) => r.Children? && SomeHoldCompiled(w, cs, r.children, x, globs, matched)
    case All(cs) => r.Children? && AllHoldCompiled(w, cs, r.children, x, globs, matched)
    case Not(inner) =>
      !(x.res.None? && DependsOnResponse(inner)) && r.NotResources?
      && !HoldsCompiled(w, inner, r.inner, x, globs, matched)
    case _ => Holds(w, c, x)
  }

  predicate SomeHoldCompiled(w: World, cs: seq<Condition>, rs: seq<ConditionResources>, x: Context, globs: GlobSet,
                             matched: seq<bool>)
    decreases cs, 1
  {
    cs != [] && rs != [] &&
    (HoldsCompiled(w, cs[0], rs[0], x, globs, matched) || SomeHoldCompiled(w, cs[1..], rs[1..], x, globs, matched))
  }

  predicate AllHoldCompiled(w: World, cs: seq<Condition>, rs: seq<ConditionResources>, x: Context, globs: GlobSet,
                            matched: seq<bool>)
    decreases cs, 1
  {
    cs == [] || rs == [] ||
    (HoldsCompiled(w, cs[0], rs[0], x, globs, matched) && AllHoldCompiled(w, cs[1..], rs[1..], x, globs, matched))
  }

  // ---------------------------------------------------------------------------
  // Compiled evaluation is direct evaluation

  lemma SpecialWhenNotRegex(pattern: string, host: string)
    ensures SpecialHostMatch(NormalizeHost(pattern), host).None? <==> HostPatternUsesRegex(pattern)
  {
    LowerKeepsGlobSyntax(Trim(pattern, IsBracket));
  }

  lemma LowerKeepsGlobSyntax(p: string)
    ensures GlobActive(Lower(p)) == GlobActive(p)
    ensures (Lower(p) == "*") == (p == "*") && (Lower(p) == "**") == (p == "**")
    ensures ("*." <= Lower(p)) == ("*." <= p) && ("**." <= Lower(p)) == ("**." <= p)
  {
    assert forall i :: 0 <= i < |p| ==>
      (Lower(p)[i] == '*' <==> p[i] == '*') && (Lower(p)[i] == '\\' <==> p[i] == '\\');
    assert forall i :: 0 <= i < |p| ==> (Lower(p)[i] == '.' <==> p[i] == '.');
  }

  lemma HostMatchesIdIsDirect(globs: GlobSet, pattern: string, glob: string, host: string, id: Option<nat>)
    requires globs.Sound()
    requires HostPatternUsesRegex(pattern) ==> ('.', glob) in globs.ids && id == globs.Id(glob, '.')
    ensures HostMatchesId(globs, pattern, host, id) == HostMatches(pattern, glob, host)
  {
    SpecialWhenNotRegex(pattern, NormalizeHost(host));
    if HostPatternUsesRegex(pattern) {
      RunIdIsMatch(globs, glob, '.', NormalizeHost(host));
    }
  }

  lemma CapturesCombine(a: seq<string>, b: seq<string>)
    ensures AppendCaptures(AppendCaptures([], Numbered(Some(a), 0).value), Numbered(Some(b), 0).value)
         == FirstNine(a + b)
  {
  }

  lemma {:induction false} MatchCompiledIsDirect(w: World, m: Matcher, url: UrlParts, raw: string, globs: GlobSet)
    requires globs.Sound() && Registered(globs.ids, MatcherKeys(m))
    ensures MatchCompiled(w, m, url, raw, globs, BindMatcher(m, globs)) == MatcherMatch(w, m, url, raw)
    decreases m
  {
    match m
    case Glob(glob) => GlobMatchCompiledIsDirect(glob, url, globs);
    case NotMatcher(inner) => MatchCompiledIsDirect(w, inner, url, raw, globs);
    case _ =>
  }

  lemma GlobKeysRegistered(glob: GlobMatcher, globs: GlobSet)
    requires Registered(globs.ids, MatcherKeys(Glob(glob)))
    ensures HostPatternUsesRegex(glob.host) ==> ('.', glob.host) in globs.ids
    ensures glob.port.Some? ==> ('.', glob.port.value) in globs.ids
    ensures glob.path.Some? && GlobActive(glob.path.value) ==> ('/', glob.path.value) in globs.ids
    ensures glob.query.Some? ==> ('&', glob.query.value) in globs.ids
  {
    var keys := MatcherKeys(Glob(glob));
    assert forall key :: key in keys ==> key in globs.ids;
    assert HostPatternUsesRegex(glob.host) ==> ('.', glob.host) in keys;
    assert glob.port.Some? ==> ('.', glob.port.value) in keys;
    assert glob.path.Some? && GlobActive(glob.path.value) ==> ('/', glob.path.value) in keys;
    assert glob.query.Some? ==> ('&', glob.query.value) in keys;
  }

  lemma PortIsDirect(port: Option<string>, url: UrlParts, globs: GlobSet)
    requires globs.Sound() && (port.Some? ==> ('.', port.value) in globs.ids)
    ensures PortMatchesId(port, url, globs, OptionalId(globs, port, '.')) == PortMatches(port, url)
  {
    if port.Some? && url.EffectivePort().Some? {
      RunIdIsMatch(globs, port.value, '.', Decimal(url.EffectivePort().value));
    }
  }

  lemma PathIsDirect(path: Option<string>, url: UrlParts, globs: GlobSet, id: Option<nat>)
    requires globs.Sound()
    requires path.Some? && GlobActive(path.value) ==> ('/', path.value) in globs.ids && id == globs.Id(path.value, '/')
    ensures PathGroups(path, url, globs, id) == Numbered(PathCaptures(path, url), 0)
  {
    if path.Some? && GlobActive(path.value) {
      RunIdIsMatch(globs, path.value, '/', url.path);
    }
  }

  lemma QueryIsDirect(query: Option<string>, url: UrlParts, globs: GlobSet)
    requires globs.Sound() && (query.Some? ==> ('&', query.value) in globs.ids)
    ensures QueryGroups(query, url, globs, OptionalId(globs, query, '&')) == Numbered(QueryCaptures(query, url), 0)
  {
    if query.Some? {
      RunIdIsMatch(globs, query.value, '&', if url.query.Some? then url.query.value else "");
    }
  }

  lemma GlobMatchCompiledIsDirect(glob: GlobMatcher, url: UrlParts, globs: GlobSet)
    requires globs.Sound() && Registered(globs.ids, MatcherKeys(Glob(glob)))
    ensures GlobMatchCompiled(glob, url, globs, BindMatcher(Glob(glob), globs)) == GlobMatch(glob, url)
  {
    GlobKeysRegistered(glob, globs);
    var r := BindMatcher(Glob(glob), globs);
    HostMatchesIdIsDirect(globs, glob.host, glob.host, url.host, r.host);
    PortIsDirect(glob.port, url, globs);
    PathIsDirect(glob.path, url, globs, r.path);
    QueryIsDirect(glob.query, url, globs);
    var path := PathCaptures(glob.path, url);
    var query := QueryCaptures(glob.query, url);
    if path.Some? && query.Some? {
      CapturesCombine(path.value, query.value);
    }
  }

  lemma {:induction false} IpKeysRegistered(w: World, patterns: seq<string>, ids: map<PatternKey, nat>, i: nat)
    requires Registered(ids, IpKeys(w, patterns)) && i < |patterns| && IpPatternUsesRegex(patterns[i])
    ensures ('\0', NormalizeIp(w, patterns[i])) in ids
    decreases |patterns|
  {
    var keys := IpKeys(w, patterns);
    assert forall key :: key in keys ==> key in ids;
    if i == 0 {
      assert keys[0] == ('\0', NormalizeIp(w, patterns[0]));
    } else {
      var rest := IpKeys(w, patterns[1..]);
      assert forall key :: key in rest ==> key in keys;
      IpKeysRegistered(w, patterns[1..], ids, i - 1);
    }
  }

  /** Trimming never adds or removes glob syntax. */
  lemma {:induction false} TrimKeepsGlobSyntax(s: string, p: char -> bool)
    requires !p('*') && !p('\\')
    ensures GlobActive(Trim(s, p)) == GlobActive(s)
  {
    TrimStartKeeps(s, p);
    TrimEndKeeps(TrimStart(s, p), p);
  }

  lemma {:induction false} TrimStartKeeps(s: string, p: char -> bool)
    requires !p('*') && !p('\\')
    ensures GlobActive(TrimStart(s, p)) == GlobActive(s)
    decreases |s|
  {
    if s != [] && p(s[0]) {
      TrimStartKeeps(s[1..], p);
      assert s == [s[0]] + s[1..];
    }
  }

  lemma {:induction false} TrimEndKeeps(s: string, p: char -> bool)
    requires !p('*') && !p('\\')
    ensures GlobActive(TrimEnd(s, p)) == GlobActive(s)
    decreases |s|
  {
    if s != [] && p(s[|s| - 1]) {
      TrimEndKeeps(s[..|s| - 1], p);
      assert s == s[..|s| - 1] + [s[|s| - 1]];
    }
  }

  lemma NormalizeIpKeepsGlobSyntax(w: World, pattern: string)
    requires w.SocketsAreLiteral()
    ensures GlobActive(NormalizeIp(w, pattern)) == GlobActive(pattern)
    ensures pattern == "*" || pattern == "**" ==> NormalizeIp(w, pattern) == pattern
  {
    TrimKeepsGlobSyntax(pattern, IsWhitespace);
    TrimKeepsGlobSyntax(Trim(pattern, IsWhitespace), IsBracket);
  }

  lemma AnyIpMatchesIdIsDirect(w: World, globs: GlobSet, patterns: seq<string>, ip: Option<string>)
    requires w.SocketsAreLiteral() && globs.Sound() && Registered(globs.ids, IpKeys(w, patterns))
    ensures AnyIpMatchesId(w, globs, patterns, ip, IpResources(BindIps(w, patterns, globs)))
         == AnyIpMatches(w, patterns, ip)
  {
    if ip.Some? {
      var actual := NormalizeIp(w, ip.value);
      var ips := BindIps(w, patterns, globs);
      forall i | 0 <= i < |patterns|
        ensures IpMatchesId(w, globs, patterns[i], actual, ips[i]) == IpMatches(w, patterns[i], actual)
      {
        NormalizeIpKeepsGlobSyntax(w, patterns[i]);
        if IpPatternUsesRegex(patterns[i]) {
          IpKeysRegistered(w, patterns, globs.ids, i);
          RunIdIsMatch(globs, NormalizeIp(w, patterns[i]), '\0', actual);
        }
      }
    }
  }

  /** One scan of the body serves every condition of the snapshot. */
  ghost predicate ScannedBody(w: World, x: Context, bodies: BodySet, matched: seq<bool>) {
    && |matched| == |bodies.literals|
    && forall id :: 0 <= id < |matched| ==> matched[id] == OccursIgnoreCase(bodies.literals[id], w.decode(x.req.body))
  }

  /** Ids have been bound for every pattern and literal of these conditions. */
  ghost predicate Bound(w: World, keys: seq<PatternKey>, literals: set<string>, globs: GlobSet, bodies: BodySet) {
    && globs.Sound() && Registered(globs.ids, keys)
    && literals <= bodies.ids.Keys && bodies.CoversLiterals(bodies.ids.Keys)
  }

  lemma HostIsDirect(w: World, pattern: string, x: Context, globs: GlobSet, bodies: BodySet, matched: seq<bool>)
    requires Bound(w, ConditionKeys(w, HostIs(pattern)), {}, globs, bodies)
    ensures HoldsCompiled(w, HostIs(pattern), BindCondition(w, HostIs(pattern), globs, bodies), x, globs, matched)
         == Holds(w, HostIs(pattern), x)
  {
    var c := HostIs(pattern);
    if x.url.Some? {
      assert HostPatternUsesRegex(pattern) ==> ConditionKeys(w, c)[0] == ('.', Lower(pattern));
      HostMatchesIdIsDirect(globs, pattern, Lower(pattern), x.url.value.host, BindCondition(w, c, globs, bodies).host);
    }
  }

  lemma UrlGlobIsDirect(w: World, pattern: string, x: Context, globs: GlobSet, bodies: BodySet, matched: seq<bool>)
    requires Bound(w, ConditionKeys(w, UrlGlob(pattern)), {}, globs, bodies)
    ensures HoldsCompiled(w, UrlGlob(pattern), BindCondition(w, UrlGlob(pattern), globs, bodies), x, globs, matched)
         == Holds(w, UrlGlob(pattern), x)
  {
    if GlobActive(pattern) {
      assert ConditionKeys(w, UrlGlob(pattern))[0] == ('\0', pattern);
      RunIdIsMatch(globs, pattern, '\0', x.req.url);
    }
  }

  /** A condition tree evaluated with its bound ids holds exactly when it holds. */
  lemma {:induction false} HoldsCompiledIsDirect(w: World, c: Condition, x: Context, globs: GlobSet, bodies: BodySet,
                                                 matched: seq<bool>)
    requires w.SocketsAreLiteral() && ScannedBody(w, x, bodies, matched)
    requires Bound(w, ConditionKeys(w, c), BodyLiterals(c), globs, bodies)
    ensures HoldsCompiled(w, c, BindCondition(w, c, globs, bodies), x, globs, matched) == Holds(w, c, x)
    decreases c, 0
  {
    match c
    case HostIs(pattern) => HostIsDirect(w, pattern, x, globs, bodies, matched);
    case UrlGlob(pattern) => UrlGlobIsDirect(w, pattern, x, globs, bodies, matched);
    case ClientIp(patterns) => AnyIpMatchesIdIsDirect(w, globs, patterns, x.req.clientIp);
    case ServerIp(patterns) => AnyIpMatchesIdIsDirect(w, globs, patterns, x.req.serverIp);
    case BodyContains(literal) =>
      ScanAgreesWithSearch(bodies, bodies.ids.Keys, matched, w.decode(x.req.body), literal);
    case Any(cs) => ConditionsCompiledAreDirect(w, cs, x, globs, bodies, matched);
    case All(cs) => ConditionsCompiledAreDirect(w, cs, x, globs, bodies, matched);
    case Not(inner) => HoldsCompiledIsDirect(w, inner, x, globs, bodies, matched);
    case _ =>
  }

  lemma {:induction false} ConditionsCompiledAreDirect(w: World, cs: seq<Condition>, x: Context, globs: GlobSet,
                                                       bodies: BodySet, matched: seq<bool>)
    requires w.SocketsAreLiteral() && ScannedBody(w, x, bodies, matched)
    requires Bound(w, ConditionsKeys(w, cs), AllBodyLiterals(cs), globs, bodies)
    ensures AllHoldCompiled(w, cs, BindConditions(w, cs, globs, bodies), x, globs, matched) == AllHold(w, cs, x)
    ensures SomeHoldCompiled(w, cs, BindConditions(w, cs, globs, bodies), x, globs, matched) ==
      exists i :: 0 <= i < |cs| && Holds(w, cs[i], x)
    decreases cs, 1
  {
    if cs != [] {
      RegisteredParts(globs.ids, ConditionKeys(w, cs[0]), ConditionsKeys(w, cs[1..]));
      HoldsCompiledIsDirect(w, cs[0], x, globs, bodies, matched);
      ConditionsCompiledAreDirect(w, cs[1..], x, globs, bodies, matched);
      assert forall i :: 0 < i < |cs| ==> cs[i] == cs[1..][i - 1];
      assert forall i :: 0 <= i < |cs[1..]| ==> cs[1..][i] == cs[i + 1];
    }
  }

  lemma RegisteredParts(ids: map<PatternKey, nat>, a: seq<PatternKey>, b: seq<PatternKey>)
    requires Registered(ids, a + b)
    ensures Registered(ids, a) && Registered(ids, b)
  {
    assert forall i :: 0 <= i < |a| ==> a[i] == (a + b)[i];
    assert forall i :: 0 <= i < |b| ==> b[i] == (a + b)[|a| + i];
  }
}
