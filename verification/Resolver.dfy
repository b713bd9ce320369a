/**
 Resolution as it is run, over indexed candidates and compiled conditions; it returns
 exactly what considering every rule returns.
 */
module Resolver {
  import opened Text
  import opened Actions
  import opened Model
  import opened Matching
  import opened Compiled
  import opened Index
  import opened Resolution
  import opened Indices
  import opened RuleOrder

  /** A compiled snapshot. */
  datatype RuleSet = RuleSet(rules: seq<Rule>, index: RuleIndex)
  {
    ghost predicate Valid(w: World) {
      && Files(index.candidates, Places(w, rules))
      && ResourcesBound(w, rules, index.globs, index.bodies, index.resources)
    }
  }

  /** Compiles rules into a snapshot, unless patterns or body literals make it panic. */
  method Snapshot(w: World, rules: seq<Rule>) returns (snapshot: Option<RuleSet>)
    ensures snapshot.Some? <==> SnapshotBuilds(w, rules)
    ensures snapshot.Some? ==> snapshot.value.rules == rules && snapshot.value.Valid(w)
  {
    var index := BuildIndex(w, rules);
    if index.None? {
      return None;
    }
    snapshot := Some(RuleSet(rules, index.value));
  }

  // ---------------------------------------------------------------------------
  // Rules outside the candidates offer nothing

  /** Considering the candidates in order offers what considering every rule offers. */
  lemma CandidatesSuffice(w: World, rules: seq<Rule>, indices: seq<nat>, req: Request, res: Option<Response>,
                          body: bool)
    requires w.SearchIsSound() && NoRepeats(indices) && Within(indices, |rules|)
    requires var url := w.parse(req.url);
      forall idx ::
        && 0 <= idx < |rules|
        && (url.None? || Reached(PlaceOf(w, rules[idx]), NormalizeHost(url.value.host), req.url))
        ==> idx in indices
    ensures InTurn(OffersByRule(w, rules, req, res, body), Sort(rules, indices)) == AllOffers(w, rules, req, res, body)
  {
    var per := OffersByRule(w, rules, req, res, body);
    forall v | 0 <= v < |rules| && v !in indices
      ensures per[v] == []
    {
      OutsideCandidates(w, rules[v], req, res, body);
    }
    InTurnOfSorted(rules, per, indices);
  }

  lemma OutsideCandidates(w: World, rule: Rule, req: Request, res: Option<Response>, body: bool)
    requires w.SearchIsSound()
    requires w.parse(req.url).Some? ==> !Reached(PlaceOf(w, rule), NormalizeHost(w.parse(req.url).value.host), req.url)
    ensures RuleOffers(w, rule, req, res, body) == []
  {
    var url := w.parse(req.url);
    if url.Some? && MatcherMatch(w, rule.matcher, url.value, req.url).Some? {
      MatchingRuleIsReached(w, rule, url.value, req.url);
    }
  }

  // ---------------------------------------------------------------------------
  // The resolver

  /** The captures with which a rule applies, computed with compiled resources. */
  function AppliesCompiled(w: World, rule: Rule, r: RuleResources, index: RuleIndex, x: Context, body: bool,
                           matched: seq<bool>): Option<Captures>
  {
    if rule.disabled || x.url.None? then None
    else
      var captures := MatchCompiled(w, rule.matcher, x.url.value, x.req.url, index.globs, r.matcher);
      if captures.None? then None
      else if !body && NeedsRequestBody(rule.conditions) then None
      else if !AllHoldCompiled(w, rule.conditions, r.conditions, x.(line := rule.line), index.globs, matched) then None
      else captures
  }

  lemma AppliesCompiledIsDirect(w: World, rs: RuleSet, idx: nat, x: Context, body: bool, matched: seq<bool>)
    requires w.Lawful() && rs.Valid(w) && idx < |rs.rules|
    requires x.url == w.parse(x.req.url) && ScannedBody(w, x, rs.index.bodies, matched)
    ensures AppliesCompiled(w, rs.rules[idx], rs.index.resources[idx], rs.index, x, body, matched)
      == Applies(w, rs.rules[idx], x.req, x.res, body)
  {
    var rule := rs.rules[idx];
    var globs := rs.index.globs;
    RegisteredParts(globs.ids, MatcherKeys(rule.matcher), ConditionsKeys(w, rule.conditions));
    if x.url.Some? {
      MatchCompiledIsDirect(w, rule.matcher, x.url.value, x.req.url, globs);
    }
    var y := x.(line := rule.line);
    ConditionsCompiledAreDirect(w, rule.conditions, y, globs, rs.index.bodies, matched);
  }

  /** Considers one rule's actions in turn, updating the state of resolution. */
  method TakeActions(
    actions: seq<ResolvedAction>, rules: seq<MatchedRule>, seen: set<(string, nat)>, singles: set<Family>,
    skip: SkipState,
    rule: Rule, captures: Captures, res: Option<Response>, includeBody: bool)
    returns (actions': seq<ResolvedAction>, rules': seq<MatchedRule>, seen': set<(string, nat)>, singles': set<Family>)
    modifies skip
    ensures Fold(actions', rules', seen', singles', skip.families) ==
      TakeAll(Fold(actions, rules, seen, singles, old(skip.families)),
              ActionOffers(rule.actions, Brief(rule), captures, res, includeBody))
  {
    actions', rules', seen', singles' := actions, rules, seen, singles;
    ghost var before := Fold(actions, rules, seen, singles, skip.families);
    var brief := Brief(rule);
    for k := 0 to |rule.actions|
      invariant Fold(actions', rules', seen', singles', skip.families) ==
        TakeAll(before, ActionOffers(rule.actions[..k], brief, captures, res, includeBody))
    {
      NextAction(before, rule.actions, k, brief, captures, res, includeBody);
      var available := ForBodyAvailability(rule.actions[k], includeBody);
      if available.None? {
        continue;
      }
      var action := available.value;
      var family := action.Family();
      if skip.Suppresses(family) {
        continue;
      }
      if IsSingle(family) && family in singles' {
        continue;
      }
      if IsSingle(family) {
        singles' := singles' + {family};
      }
      if Location(brief) !in seen' {
        rules' := rules' + [brief];
      }
      seen' := seen' + {Location(brief)};
      skip.Observe(action);
      actions' := actions' + [ResolvedAction(action, brief, captures, res)];
    }
    assert rule.actions[..|rule.actions|] == rule.actions;
  }

  /** What one rule offers, in terms of how it applies. */
  ghost predicate OffersAre(offers: seq<ResolvedAction>, captures: Option<Captures>, rule: Rule,
                            res: Option<Response>, body: bool)
  {
    offers == if captures.None? then [] else ActionOffers(rule.actions, Brief(rule), captures.value, res, body)
  }

  /** Decides whether a rule applies, with its compiled resources. */
  method MatchRule(w: World, rs: RuleSet, idx: nat, x: Context, includeBody: bool, matched: seq<bool>,
                   ghost per: seq<seq<ResolvedAction>>)
    returns (captures: Option<Captures>)
    requires w.Lawful() && rs.Valid(w) && idx < |rs.rules|
    requires x.url == w.parse(x.req.url) && ScannedBody(w, x, rs.index.bodies, matched)
    requires per == OffersByRule(w, rs.rules, x.req, x.res, includeBody)
    ensures OffersAre(per[idx], captures, rs.rules[idx], x.res, includeBody)
  {
    AppliesCompiledIsDirect(w, rs, idx, x, includeBody, matched);
    captures := AppliesCompiled(w, rs.rules[idx], rs.index.resources[idx], rs.index, x, includeBody, matched);
  }

  /** Considers the rules at the given indices in turn. */
  method ResolveInOrder(w: World, rs: RuleSet, ordered: seq<nat>, x: Context, includeBody: bool, matched: seq<bool>,
                        ghost per: seq<seq<ResolvedAction>>)
    returns (r: ResolveResult)
    requires w.Lawful() && rs.Valid(w) && Within(ordered, |rs.rules|) && |per| == |rs.rules|
    requires x.url == w.parse(x.req.url) && ScannedBody(w, x, rs.index.bodies, matched)
    requires per == OffersByRule(w, rs.rules, x.req, x.res, includeBody)
    ensures var f := TakeAll(NOTHING, InTurn(per, ordered)); r == ResolveResult(f.actions, f.matched)
  {
    var actions: seq<ResolvedAction>, rules: seq<MatchedRule> := [], [];
    var seen: set<(string, nat)>, singles: set<Family> := {}, {};
    var skip := new SkipState();
    for n := 0 to |ordered|
      invariant fresh(skip)
      invariant Fold(actions, rules, seen, singles, skip.families) == TakeAll(NOTHING, InTurn(per, ordered[..n]))
    {
      var idx := ordered[n];
      NextOffers(per, ordered, n);
      var captures := MatchRule(w, rs, idx, x, includeBody, matched, per);
      if captures.Some? {
        actions, rules, seen, singles :=
          TakeActions(actions, rules, seen, singles, skip, rs.rules[idx], captures.value, x.res, includeBody);
      }
    }
    assert ordered[..|ordered|] == ordered;
    r := ResolveResult(actions, rules);
  }

  /** Resolves a request against a snapshot, with or without its body and a response. */
  method ResolveInner(w: World, rs: RuleSet, req: Request, res: Option<Response>,
                      includeBody: bool) returns (r: ResolveResult)
    requires w.Lawful() && rs.Valid(w)
    ensures r == LinearResolve(w, rs.rules, req, res, includeBody)
  {
    var url := w.parse(req.url);
    var x := Context(url, req, res, 0);
    var matched := Scan(w, rs.index.bodies, w.decode(req.body));
    var indices := CandidateRuleIndices(w, rs.index.candidates, Places(w, rs.rules), |rs.rules|, url, req.url);
    CandidatesSuffice(w, rs.rules, indices, req, res, includeBody);
    r := ResolveInOrder(w, rs, Sort(rs.rules, indices), x, includeBody, matched,
                        OffersByRule(w, rs.rules, req, res, includeBody));
  }

}
