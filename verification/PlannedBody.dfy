/**
 The body decision as it is computed, from candidates and compiled conditions.
 */
module PlannedBody {
  import opened Text
  import opened Model
  import opened Matching
  import opened Compiled
  import opened Index
  import opened Resolver
  import opened BodyPlanning

  predicate MayMatchCompiled(w: World, c: Condition, r: ConditionResources, x: Context, globs: GlobSet,
                             matched: seq<bool>)
    decreases c, 0
  {
    match c
    case BodyContains(_) => true
    case BodyRegex(_) => true
    case ResHeaderPresent(_) => true
    case ResHeaderContains(_, _) => true
    case StatusIs(_) => true
    case Any(cs) => r.Children? && SomeMayMatchCompiled(w, cs, r.children, x, globs, matched)
    case All(cs) => r.Children? && AllMayMatchCompiled(w, cs, r.children, x, globs, matched)
    case Not(inner) => DependsOnRequestBody(inner) || DependsOnResponse(inner)
      || HoldsCompiled(w, c, r, x, globs, matched)
    case _ => HoldsCompiled(w, c, r, x, globs, matched)
  }

  predicate SomeMayMatchCompiled(w: World, cs: seq<Condition>, rs: seq<ConditionResources>, x: Context,
                                 globs: GlobSet, matched: seq<bool>)
    decreases cs, 1
  {
    cs != [] && rs != [] &&
    (MayMatchCompiled(w, cs[0], rs[0], x, globs, matched) ||
     SomeMayMatchCompiled(w, cs[1..], rs[1..], x, globs, matched))
  }

  predicate AllMayMatchCompiled(w: World, cs: seq<Condition>, rs: seq<ConditionResources>, x: Context, globs: GlobSet,
                                matched: seq<bool>)
    decreases cs, 1
  {
    cs == [] || rs == [] ||
    (MayMatchCompiled(w, cs[0], rs[0], x, globs, matched) &&
     AllMayMatchCompiled(w, cs[1..], rs[1..], x, globs, matched))
  }

  lemma {:induction false} MayMatchCompiledIsDirect(w: World, c: Condition, x: Context, globs: GlobSet,
                                                    bodies: BodySet, matched: seq<bool>)
    requires w.SocketsAreLiteral() && ScannedBody(w, x, bodies, matched)
    requires Bound(w, ConditionKeys(w, c), BodyLiterals(c), globs, bodies)
    ensures MayMatchCompiled(w, c, BindCondition(w, c, globs, bodies), x, globs, matched) == MayMatch(w, c, x)
    decreases c, 0
  {
    match c
    case Any(cs) => AllMayMatchCompiledIsDirect(w, cs, x, globs, bodies, matched);
    case All(cs) => AllMayMatchCompiledIsDirect(w, cs, x, globs, bodies, matched);
    case _ => HoldsCompiledIsDirect(w, c, x, globs, bodies, matched);
  }

  lemma {:induction false} AllMayMatchCompiledIsDirect(w: World, cs: seq<Condition>, x: Context, globs: GlobSet,
                                                       bodies: BodySet, matched: seq<bool>)
    requires w.SocketsAreLiteral() && ScannedBody(w, x, bodies, matched)
    requires Bound(w, ConditionsKeys(w, cs), AllBodyLiterals(cs), globs, bodies)
    ensures AllMayMatchCompiled(w, cs, BindConditions(w, cs, globs, bodies), x, globs, matched) == AllMayMatch(w, cs, x)
    ensures SomeMayMatchCompiled(w, cs, BindConditions(w, cs, globs, bodies), x, globs, matched) ==
      exists i :: 0 <= i < |cs| && MayMatch(w, cs[i], x)
    decreases cs, 1
  {
    if cs != [] {
      RegisteredParts(globs.ids, ConditionKeys(w, cs[0]), ConditionsKeys(w, cs[1..]));
      MayMatchCompiledIsDirect(w, cs[0], x, globs, bodies, matched);
      AllMayMatchCompiledIsDirect(w, cs[1..], x, globs, bodies, matched);
      assert forall i :: 0 < i < |cs| ==> cs[i] == cs[1..][i - 1];
      assert forall i :: 0 <= i < |cs[1..]| ==> cs[1..][i] == cs[i + 1];
    }
  }

  predicate ViableCompiled(w: World, rule: Rule, r: RuleResources, index: RuleIndex, x: Context, matched: seq<bool>) {
    && !rule.disabled && x.url.Some?
    && MatchCompiled(w, rule.matcher, x.url.value, x.req.url, index.globs, r.matcher).Some?
    && AllMayMatchCompiled(w, rule.conditions, r.conditions, x.(line := rule.line), index.globs, matched)
  }

  lemma ViableCompiledIsDirect(w: World, rs: RuleSet, idx: nat, x: Context, matched: seq<bool>)
    requires w.Lawful() && rs.Valid(w) && idx < |rs.rules| && x.res.None?
    requires x.url == w.parse(x.req.url) && ScannedBody(w, x, rs.index.bodies, matched)
    ensures ViableCompiled(w, rs.rules[idx], rs.index.resources[idx], rs.index, x, matched)
         == Viable(w, rs.rules[idx], x.req)
  {
    var rule := rs.rules[idx];
    var globs := rs.index.globs;
    RegisteredParts(globs.ids, MatcherKeys(rule.matcher), ConditionsKeys(w, rule.conditions));
    if x.url.Some? {
      MatchCompiledIsDirect(w, rule.matcher, x.url.value, x.req.url, globs);
    }
    AllMayMatchCompiledIsDirect(w, rule.conditions, x.(line := rule.line), globs, rs.index.bodies, matched);
  }

  lemma ViableIsReached(w: World, rule: Rule, req: Request)
    requires w.SearchIsSound() && Viable(w, rule, req)
    ensures Reached(PlaceOf(w, rule), NormalizeHost(w.parse(req.url).value.host), req.url)
  {
    MatchingRuleIsReached(w, rule, w.parse(req.url).value, req.url);
  }

  /** Looks through the candidates for a viable rule that uses the request body. */
  method PlanRequestBody(w: World, rs: RuleSet, req: Request) returns (required: bool)
    requires w.Lawful() && rs.Valid(w)
    ensures required == RequestBodyRequired(w, rs.rules, req)
  {
    var url := w.parse(req.url);
    var x := Context(url, req, None, 0);
    var matched := Scan(w, rs.index.bodies, w.decode(req.body));
    var indices := CandidateRuleIndices(w, rs.index.candidates, Places(w, rs.rules), |rs.rules|, url, req.url);
    required := false;
    for n := 0 to |indices|
      invariant forall k :: 0 <= k < n ==>
        !(Viable(w, rs.rules[indices[k]], req) && UsesRequestBody(rs.rules[indices[k]]))
    {
      var idx := indices[n];
      ViableCompiledIsDirect(w, rs, idx, x, matched);
      if ViableCompiled(w, rs.rules[idx], rs.index.resources[idx], rs.index, x, matched)
         && UsesRequestBody(rs.rules[idx]) {
        return true;
      }
    }
    forall idx | 0 <= idx < |rs.rules| && Viable(w, rs.rules[idx], req)
      ensures !UsesRequestBody(rs.rules[idx])
    {
      ViableIsReached(w, rs.rules[idx], req);
      assert idx in indices;
    }
  }
}
