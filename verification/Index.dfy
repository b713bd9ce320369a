/**
 The candidate index of a snapshot: host buckets, suffix buckets and the literal
 prefilter, with the proof that no matching rule is ever lost.
 */
module Index {
  import opened Text
  import opened RegexLiteral
  import opened Model
  import opened Matching
  import opened Compiled
  import opened Indices

  // ---------------------------------------------------------------------------
  // Where a rule is filed

  datatype IndexKey = Exact(host: string) | Suffix(host: string) | Global

  predicate IsPlainDomain(host: string) {
    host != [] && forall i :: 0 <= i < |host| ==>
      IsAsciiAlphanumeric(host[i]) || host[i] == '-' || host[i] == '.' || host[i] == ':' || host[i] == '_'
  }

  function GlobIndexKey(glob: GlobMatcher): IndexKey {
    var host := NormalizeHost(glob.host);
    if host == [] || host == "*" || '?' in host then Global
    else if "**." <= host then SuffixKey(host[3..])
    else if "*." <= host then SuffixKey(host[2..])
    else if "." <= host then SuffixKey(host[1..])
    else if '*' in host then Global
    else if IsPlainDomain(host) then Exact(host)
    else Global
  }

  function SuffixKey(base: string): IndexKey {
    if IsPlainDomain(base) then Suffix(base) else Global
  }

  function MatcherIndexKey(w: World, m: Matcher): IndexKey {
    match m
    case ExactUrl(expected) =>
      var url := w.parse(expected);
      if url.Some? then Exact(NormalizeHost(url.value.host)) else Global
    case Glob(glob) => GlobIndexKey(glob)
    case _ => Global
  }

  /** Where the index keeps a rule. */
  datatype Place = UnderLiteral(literal: string) | UnderKey(key: IndexKey)

  function PlaceOf(w: World, rule: Rule): Place {
    if rule.matcher.Regex? && RequiredLiteral(rule.matcher.regex).Some?
    then UnderLiteral(RequiredLiteral(rule.matcher.regex).value)
    else UnderKey(MatcherIndexKey(w, rule.matcher))
  }

  // ---------------------------------------------------------------------------
  // Suffixes of a host

  /** What follows each dot at or after `i`, without an empty last suffix. */
  function DotSuffixes(host: string, i: nat): seq<string>
    requires i <= |host|
    decreases |host| - i
  {
    if i == |host| then []
    else (if host[i] == '.' && i + 1 < |host| then [host[i + 1..]] else []) + DotSuffixes(host, i + 1)
  }

  function Suffixes(host: string): seq<string> {
    [host] + DotSuffixes(host, 0)
  }

  function NextDot(host: string, i: nat): (dot: nat)
    requires i <= |host|
    ensures i <= dot <= |host| && (dot < |host| ==> host[dot] == '.')
    ensures DotSuffixes(host, i) == DotSuffixes(host, dot)
    decreases |host| - i
  {
    if i == |host| || host[i] == '.' then i else NextDot(host, i + 1)
  }

  method HostSuffixes(host: string) returns (suffixes: seq<string>)
    ensures suffixes == Suffixes(host)
  {
    suffixes := [];
    var start := 0;
    while true
      invariant start <= |host|
      invariant Suffixes(host) == suffixes + [host[start..]] + DotSuffixes(host, start)
      decreases |host| - start
    {
      suffixes := suffixes + [host[start..]];
      var dot := NextDot(host, start);
      assert Suffixes(host) == suffixes + DotSuffixes(host, dot);
      if dot == |host| {
        break;
      }
      start := dot + 1;
      if start >= |host| {
        assert DotSuffixes(host, dot) == DotSuffixes(host, start) == [];
        break;
      }
      assert DotSuffixes(host, dot) == [host[start..]] + DotSuffixes(host, start);
    }
  }

  /** Every non-empty text that follows a dot of the host is listed. */
  lemma {:induction false} SuffixIsListed(host: string, dot: nat, i: nat)
    requires i <= dot && dot + 1 < |host| && host[dot] == '.'
    ensures host[dot + 1..] in DotSuffixes(host, i)
    decreases dot - i
  {
    if i < dot {
      SuffixIsListed(host, dot, i + 1);
    }
  }

  // ---------------------------------------------------------------------------
  // The index

  type Buckets = map<string, seq<nat>>

  datatype RuleResources = RuleResources(matcher: MatcherResources, conditions: seq<ConditionResources>)

  /** The buckets and the literal prefilter. */
  datatype Candidates = Candidates(
    exact: Buckets,
    suffix: Buckets,
    global: seq<nat>,
    prefilter: bool,
    literals: seq<string>,
    literalRules: seq<seq<nat>>,
    prefiltered: set<nat>)

  datatype RuleIndex = RuleIndex(
    candidates: Candidates,
    globs: GlobSet,
    bodies: BodySet,
    resources: seq<RuleResources>)

  predicate Filed(buckets: Buckets, key: string, idx: nat) {
    key in buckets && idx in buckets[key]
  }

  predicate FiledUnderLiteral(index: Candidates, literal: string, idx: nat) {
    exists p | 0 <= p < |index.literals| && p < |index.literalRules| ::
      index.literals[p] == literal && idx in index.literalRules[p]
  }

  /** A rule with the given place can be found there. */
  predicate Placed(index: Candidates, place: Place, idx: nat) {
    match place
    case UnderLiteral(literal) =>
      if index.prefilter then FiledUnderLiteral(index, literal, idx) else idx in index.global
    case UnderKey(Exact(host)) => Filed(index.exact, host, idx)
    case UnderKey(Suffix(host)) => Filed(index.suffix, host, idx)
    case UnderKey(Global) => idx in index.global
  }

  predicate BucketsWithin(buckets: Buckets, n: nat) {
    forall key :: key in buckets ==> Within(buckets[key], n)
  }

  /** Every rule can be found in its place, and nothing but rules is filed. */
  ghost predicate Files(index: Candidates, places: seq<Place>) {
    && |index.literals| == |index.literalRules|
    && (forall idx :: 0 <= idx < |places| ==> Placed(index, places[idx], idx))
    && BucketsWithin(index.exact, |places|) && BucketsWithin(index.suffix, |places|)
    && Within(index.global, |places|)
    && (forall p :: 0 <= p < |index.literalRules| ==> Within(index.literalRules[p], |places|))
    && (forall p, k :: 0 <= p < |index.literalRules| && 0 <= k < |index.literalRules[p]|
          ==> index.literalRules[p][k] in index.prefiltered)
  }

  // ---------------------------------------------------------------------------
  // Building

  function AddTo(buckets: Buckets, key: string, idx: nat): (r: Buckets)
    ensures forall k, i :: Filed(r, k, i) <==> Filed(buckets, k, i) || (k == key && i == idx)
    ensures forall n :: BucketsWithin(buckets, n) && idx < n ==> BucketsWithin(r, n)
  {
    buckets[key := (if key in buckets then buckets[key] else []) + [idx]]
  }

  datatype Filing = Filing(exact: Buckets, suffix: Buckets, global: seq<nat>, byLiteral: Buckets)
  {
    predicate Holds(place: Place, idx: nat) {
      match place
      case UnderLiteral(literal) => Filed(byLiteral, literal, idx)
      case UnderKey(Exact(host)) => Filed(exact, host, idx)
      case UnderKey(Suffix(host)) => Filed(suffix, host, idx)
      case UnderKey(Global) => idx in global
    }

    predicate Bounded(n: nat) {
      BucketsWithin(exact, n) && BucketsWithin(suffix, n) && Within(global, n) && BucketsWithin(byLiteral, n)
    }
  }

  method FileRules(places: seq<Place>) returns (filing: Filing, prefiltered: set<nat>)
    ensures filing.Bounded(|places|)
    ensures forall idx :: 0 <= idx < |places| ==> filing.Holds(places[idx], idx)
    ensures forall key, i :: Filed(filing.byLiteral, key, i) ==> i in prefiltered
  {
    var exact: Buckets, suffix: Buckets, global: seq<nat>, byLiteral: Buckets := map[], map[], [], map[];
    prefiltered := {};
    for idx := 0 to |places|
      invariant Filing(exact, suffix, global, byLiteral).Bounded(idx)
      invariant forall i :: 0 <= i < idx ==> Filing(exact, suffix, global, byLiteral).Holds(places[i], i)
      invariant forall key, i :: Filed(byLiteral, key, i) ==> i in prefiltered
    {
      match places[idx]
      case UnderLiteral(literal) =>
        byLiteral := AddTo(byLiteral, literal, idx);
        prefiltered := prefiltered + {idx};
      case UnderKey(Exact(host)) => exact := AddTo(exact, host, idx);
      case UnderKey(Suffix(host)) => suffix := AddTo(suffix, host, idx);
      case UnderKey(Global) => global := global + [idx];
    }
    filing := Filing(exact, suffix, global, byLiteral);
  }

  /** Lays the literal buckets out as a list of literals and a list of rules for each. */
  method ListLiterals(byLiteral: Buckets) returns (literals: seq<string>, literalRules: seq<seq<nat>>)
    ensures |literals| == |literalRules|
    ensures forall p :: 0 <= p < |literals| ==> literals[p] in byLiteral && literalRules[p] == byLiteral[literals[p]]
    ensures forall key :: key in byLiteral ==> key in literals
  {
    literals, literalRules := [], [];
    var pending := byLiteral.Keys;
    while pending != {}
      invariant |literals| == |literalRules| && pending <= byLiteral.Keys
      invariant forall p :: 0 <= p < |literals| ==>
        literals[p] in byLiteral && literalRules[p] == byLiteral[literals[p]]
      invariant forall key :: key in byLiteral ==> key in pending || key in literals
      decreases pending
    {
      var key :| key in pending;
      pending := pending - {key};
      literals := literals + [key];
      literalRules := literalRules + [byLiteral[key]];
    }
  }

  function Flatten(lists: seq<seq<nat>>): seq<nat> {
    if lists == [] then [] else lists[0] + Flatten(lists[1..])
  }

  lemma {:induction false} FlattenHolds(lists: seq<seq<nat>>, n: nat)
    requires forall p :: 0 <= p < |lists| ==> Within(lists[p], n)
    ensures Within(Flatten(lists), n)
    ensures forall p, idx :: 0 <= p < |lists| && idx in lists[p] ==> idx in Flatten(lists)
  {
    if lists != [] {
      FlattenHolds(lists[1..], n);
      forall p, idx | 0 <= p < |lists| && idx in lists[p]
        ensures idx in Flatten(lists)
      {
        if p > 0 {
          assert lists[1..][p - 1] == lists[p];
        }
      }
    }
  }

  method BuildCandidates(w: World, places: seq<Place>) returns (index: Candidates)
    ensures Files(index, places)
  {
    var filing, prefiltered := FileRules(places);
    var literals, literalRules := ListLiterals(filing.byLiteral);
    FlattenHolds(literalRules, |places|);
    if literals != [] && w.scanBuilds(literals) {
      index := Candidates(filing.exact, filing.suffix, filing.global, true, literals, literalRules, prefiltered);
      forall p, k | 0 <= p < |literalRules| && 0 <= k < |literalRules[p]|
        ensures literalRules[p][k] in prefiltered
      {
        assert Filed(filing.byLiteral, literals[p], literalRules[p][k]);
      }
    } else {
      index := Candidates(filing.exact, filing.suffix, filing.global + Flatten(literalRules), false, [], [], {});
    }
    forall idx | 0 <= idx < |places|
      ensures Placed(index, places[idx], idx)
    {
      FilingPlaces(filing, literals, literalRules, index, places[idx], idx);
    }
  }

  method BindResources(w: World, rules: seq<Rule>, globs: GlobSet, bodies: BodySet)
    returns (resources: seq<RuleResources>)
    requires globs.Sound() && RulesRegistered(w, globs.ids, rules) && bodies.CoversLiterals(SnapshotLiterals(rules))
    ensures ResourcesBound(w, rules, globs, bodies, resources)
  {
    SnapshotLiteralsCover(rules);
    resources := seq(|rules|, r requires 0 <= r < |rules| =>
      RuleResources(BindMatcher(rules[r].matcher, globs), BindConditions(w, rules[r].conditions, globs, bodies)));
  }

  /** The two things that can make the building of an index panic do not. */
  predicate SnapshotBuilds(w: World, rules: seq<Rule>) {
    SnapshotCompiles(w, rules) && LiteralsBuild(w, SnapshotLiterals(rules))
  }

  /** Compiles the index of a snapshot, unless patterns or body literals make it panic. */
  method BuildIndex(w: World, rules: seq<Rule>) returns (index: Option<RuleIndex>)
    ensures index.Some? <==> SnapshotBuilds(w, rules)
    ensures index.Some? ==>
      && Files(index.value.candidates, Places(w, rules))
      && ResourcesBound(w, rules, index.value.globs, index.value.bodies, index.value.resources)
  {
    var candidates := BuildCandidates(w, Places(w, rules));
    var globs := BuildGlobSet(w, rules);
    if globs.None? {
      return None;
    }
    var bodies := FromLiterals(w, SnapshotLiterals(rules));
    if bodies.None? {
      return None;
    }
    var resources := BindResources(w, rules, globs.value, bodies.value);
    index := Some(RuleIndex(candidates, globs.value, bodies.value, resources));
  }

  function Places(w: World, rules: seq<Rule>): seq<Place> {
    seq(|rules|, r requires 0 <= r < |rules| => PlaceOf(w, rules[r]))
  }

  /** The glob programs, body literals and bound ids are those of these rules. */
  ghost predicate ResourcesBound(w: World, rules: seq<Rule>, globs: GlobSet, bodies: BodySet,
                                 resources: seq<RuleResources>)
  {
    && |resources| == |rules|
    && forall r :: 0 <= r < |rules| ==>
      && Bound(w, RuleKeys(w, rules[r]), AllBodyLiterals(rules[r].conditions), globs, bodies)
      && resources[r] == RuleResources(
           BindMatcher(rules[r].matcher, globs), BindConditions(w, rules[r].conditions, globs, bodies))
  }

  lemma {:induction false} SnapshotLiteralsCover(rules: seq<Rule>)
    ensures forall r :: 0 <= r < |rules| ==> AllBodyLiterals(rules[r].conditions) <= SnapshotLiterals(rules)
    decreases |rules|
  {
    if rules != [] {
      SnapshotLiteralsCover(rules[..|rules| - 1]);
    }
  }

  lemma FilingPlaces(filing: Filing, literals: seq<string>, literalRules: seq<seq<nat>>, index: Candidates,
                     place: Place, idx: nat)
    requires filing.Holds(place, idx)
    requires |literals| == |literalRules| && forall key :: key in filing.byLiteral ==> key in literals
    requires forall p :: 0 <= p < |literals| ==>
      literals[p] in filing.byLiteral && literalRules[p] == filing.byLiteral[literals[p]]
    requires index.exact == filing.exact && index.suffix == filing.suffix
    requires index.prefilter ==>
      index.literals == literals && index.literalRules == literalRules && index.global == filing.global
    requires !index.prefilter ==> index.global == filing.global + Flatten(literalRules)
    requires forall p, i :: 0 <= p < |literalRules| && i in literalRules[p] ==> i in Flatten(literalRules)
    ensures Placed(index, place, idx)
  {
    if place.UnderLiteral? {
      var p :| 0 <= p < |literals| && literals[p] == place.literal;
      assert idx in literalRules[p];
    }
  }

  // ---------------------------------------------------------------------------
  // Candidates of a request

  /** Appends the values not seen before. */
  method ExtendUnique(out: seq<nat>, seen: set<nat>, values: seq<nat>) returns (more: seq<nat>, seenMore: set<nat>)
    requires NoRepeats(out) && forall v :: v in seen <==> v in out
    ensures NoRepeats(more) && forall v :: v in seenMore <==> v in more
    ensures forall v :: v in more <==> v in out || v in values
  {
    more, seenMore := out, seen;
    for i := 0 to |values|
      invariant NoRepeats(more) && forall v :: v in seenMore <==> v in more
      invariant forall v :: v in more <==> v in out || v in values[..i]
    {
      if values[i] !in seenMore {
        seenMore := seenMore + {values[i]};
        more := more + [values[i]];
      }
    }
    assert values[..|values|] == values;
  }

  lemma SubsetOfSameSize(a: set<nat>, b: set<nat>)
    requires a <= b && |a| == |b|
    ensures a == b
  {
    assert b == a + (b - a);
  }

  /** The rules filed under some literal of the URL, stopping once every prefiltered rule is found. */
  method PrefilterMatches(w: World, index: Candidates, ghost places: seq<Place>, raw: string) returns (out: seq<nat>)
    requires w.ScanIsExact() && Files(index, places)
    ensures NoRepeats(out) && Within(out, |places|)
    ensures index.prefilter ==> forall p, idx ::
      0 <= p < |index.literals| && Occurs(index.literals[p], raw) && idx in index.literalRules[p] ==> idx in out
  {
    out := [];
    if !index.prefilter {
      return;
    }
    var seen: set<nat> := {};
    var hits := w.scan(false, index.literals, raw);
    for h := 0 to |hits|
      invariant NoRepeats(out) && Within(out, |places|) && forall v :: v in seen <==> v in out
      invariant seen <= index.prefiltered
      invariant forall k, idx ::
        0 <= k < h && hits[k] < |index.literalRules| && idx in index.literalRules[hits[k]] ==> idx in out
    {
      assert hits[h] in hits;
      var rules := index.literalRules[hits[h]];
      ghost var before := out;
      out, seen := ExtendUnique(out, seen, rules);
      forall i | 0 <= i < |out|
        ensures out[i] < |places| && out[i] in index.prefiltered
      {
        assert out[i] in out;
      }
      if |seen| == |index.prefiltered| {
        SubsetOfSameSize(seen, index.prefiltered);
        return;
      }
    }
    forall p, idx | 0 <= p < |index.literals| && Occurs(index.literals[p], raw) && idx in index.literalRules[p]
      ensures idx in out
    {
      assert p in hits;
      var k :| 0 <= k < |hits| && hits[k] == p;
    }
  }

  /** A rule kept in this place is a candidate for the URL. */
  predicate Reached(place: Place, host: string, raw: string) {
    match place
    case UnderLiteral(literal) => Occurs(literal, raw)
    case UnderKey(Exact(key)) => key == host
    case UnderKey(Suffix(key)) => key in Suffixes(host)
    case UnderKey(Global) => true
  }

  function Range(n: nat): (r: seq<nat>)
    ensures |r| == n && forall i :: 0 <= i < n ==> r[i] == i
  {
    seq(n, i => i)
  }

  method SuffixMatches(index: Candidates, ghost places: seq<Place>, host: string, out: seq<nat>, seen: set<nat>)
    returns (more: seq<nat>, seenMore: set<nat>)
    requires Files(index, places) && NoRepeats(out) && Within(out, |places|) && forall v :: v in seen <==> v in out
    ensures NoRepeats(more) && Within(more, |places|) && forall v :: v in seenMore <==> v in more
    ensures forall v :: v in out ==> v in more
    ensures forall key, idx :: key in Suffixes(host) && Filed(index.suffix, key, idx) ==> idx in more
  {
    var suffixes := HostSuffixes(host);
    more, seenMore := out, seen;
    for s := 0 to |suffixes|
      invariant NoRepeats(more) && Within(more, |places|) && forall v :: v in seenMore <==> v in more
      invariant forall v :: v in out ==> v in more
      invariant forall k, idx :: 0 <= k < s && Filed(index.suffix, suffixes[k], idx) ==> idx in more
    {
      if suffixes[s] in index.suffix {
        more, seenMore := ExtendUnique(more, seenMore, index.suffix[suffixes[s]]);
        forall i | 0 <= i < |more|
          ensures more[i] < |places|
        {
          assert more[i] in more;
        }
      }
    }
    forall key, idx | key in Suffixes(host) && Filed(index.suffix, key, idx)
      ensures idx in more
    {
      var k :| 0 <= k < |suffixes| && suffixes[k] == key;
    }
  }

  lemma UnionWithin(union: seq<nat>, a: seq<nat>, b: seq<nat>, n: nat)
    requires Within(a, n) && Within(b, n) && forall v :: v in union <==> v in a || v in b
    ensures Within(union, n)
  {
    forall i | 0 <= i < |union|
      ensures union[i] < n
    {
      assert union[i] in union;
    }
  }

  /** Gathers the candidates of a URL; every rule kept in a place the URL reaches is among them. */
  method CandidateRuleIndices(w: World, index: Candidates, ghost places: seq<Place>, count: nat,
                              url: Option<UrlParts>, raw: string)
    returns (indices: seq<nat>)
    requires w.ScanIsExact() && Files(index, places) && count == |places|
    ensures NoRepeats(indices) && Within(indices, count)
    ensures forall idx ::
      0 <= idx < count && (url.None? || Reached(places[idx], NormalizeHost(url.value.host), raw)) ==> idx in indices
  {
    if url.None? {
      indices := Range(count);
      forall idx | 0 <= idx < count
        ensures idx in indices
      {
        assert indices[idx] == idx;
      }
      return;
    }
    var host := NormalizeHost(url.value.host);
    indices := [];
    var seen: set<nat> := {};
    if host in index.exact {
      indices, seen := ExtendUnique(indices, seen, index.exact[host]);
      UnionWithin(indices, [], index.exact[host], count);
    }
    ghost var exact := indices;
    indices, seen := SuffixMatches(index, places, host, indices, seen);
    ghost var hosted := indices;
    indices, seen := ExtendUnique(indices, seen, index.global);
    UnionWithin(indices, hosted, index.global, count);
    ghost var unfiltered := indices;
    var prefiltered := PrefilterMatches(w, index, places, raw);
    indices, seen := ExtendUnique(indices, seen, prefiltered);
    UnionWithin(indices, unfiltered, prefiltered, count);
    forall idx | 0 <= idx < count && Reached(places[idx], host, raw)
      ensures idx in indices
    {
      assert Placed(index, places[idx], idx);
      match places[idx]
      case UnderLiteral(literal) =>
        if index.prefilter {
          var p :| 0 <= p < |index.literals| && index.literals[p] == literal && idx in index.literalRules[p];
          assert idx in prefiltered;
        }
      case UnderKey(Exact(key)) => assert idx in exact;
      case UnderKey(Suffix(key)) => assert idx in hosted;
      case UnderKey(Global) =>
    }
  }

  // ---------------------------------------------------------------------------
  // No matching rule is lost

  lemma DottedSuffixIsListed(host: string, base: string)
    requires base != [] && DottedSuffixPrefix(host, base).Some?
    ensures base in Suffixes(host)
  {
    var dot := |host| - |base| - 1;
    assert host[..|host| - |base|][dot] == host[dot];
    SuffixIsListed(host, dot, 0);
  }

  lemma HostMatchIsReached(glob: GlobMatcher, host: string, raw: string)
    requires HostMatches(glob.host, glob.host, host)
    ensures Reached(UnderKey(GlobIndexKey(glob)), NormalizeHost(host), raw)
  {
    var pattern := NormalizeHost(glob.host);
    var actual := NormalizeHost(host);
    match GlobIndexKey(glob)
    case Suffix(base) =>
      if "**." <= pattern {
        if actual != base {
          DottedSuffixIsListed(actual, base);
        }
      } else if "*." <= pattern {
        DottedSuffixIsListed(actual, base);
      } else {
        assert pattern[0] == '.' && base == pattern[1..];
        PlainAfterDot(pattern);
        SuffixIsListed(pattern, 0, 0);
      }
    case Exact(key) => PlainIsLiteral(pattern);
    case Global =>
  }

  lemma PlainIsLiteral(host: string)
    requires IsPlainDomain(host)
    ensures !GlobActive(host)
  {
  }

  lemma PlainAfterDot(host: string)
    requires "." <= host && IsPlainDomain(host[1..])
    ensures !GlobActive(host)
  {
    assert host == [host[0]] + host[1..];
  }

  /** A rule whose matcher matches a URL is kept in a place that the URL reaches. */
  lemma MatchingRuleIsReached(w: World, rule: Rule, url: UrlParts, raw: string)
    requires w.SearchIsSound()
    requires MatcherMatch(w, rule.matcher, url, raw).Some?
    ensures Reached(PlaceOf(w, rule), NormalizeHost(url.host), raw)
  {
    match rule.matcher
    case Regex(regex) =>
      if RequiredLiteral(regex).Some? {
        RequiredLiteralOccurs(regex, w.looks, raw);
      }
    case Glob(glob) => HostMatchIsReached(glob, url.host, raw);
    case _ =>
  }
}
