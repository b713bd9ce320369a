/**
 When a shadow finding is true: exactly when the query is covered. An uncovered one is
 refuted by a request that the lint says cannot exist.
 */
module ShadowExactness {
  import opened Text
  import opened Actions
  import opened Model
  import opened Matching
  import opened Compiled
  import opened Resolution
  import opened Indices
  import opened RuleOrder
  import opened Effects
  import opened Subsumption
  import opened ShadowReport
  import opened ShadowLint
  import opened Turns
  import opened ActionLint

  // ---------------------------------------------------------------------------
  // A rule alone outputs its single families

  predicate AnyHas(output: seq<ResolvedAction>, family: Family) {
    exists i :: 0 <= i < |output| && output[i].action.Family() == family
  }

  lemma OneMoreHas(output: seq<ResolvedAction>, item: ResolvedAction, family: Family)
    ensures AnyHas(output + [item], family) <==> AnyHas(output, family) || item.action.Family() == family
  {
    assert (output + [item])[|output|] == item;
    if i :| 0 <= i < |output| && output[i].action.Family() == family {
      assert (output + [item])[i] == output[i];
    }
  }

  lemma {:induction false} TakenIsOutput(items: seq<ResolvedAction>, family: Family)
    requires family in TakeAll(NOTHING, items).singles
    ensures AnyHas(TakeAll(NOTHING, items).actions, family)
    decreases |items|
  {
    if items != [] {
      var so, item := TakeAll(NOTHING, items[..|items| - 1]), items[|items| - 1];
      OneMoreHas(so.actions, item, family);
      if family in so.singles {
        TakenIsOutput(items[..|items| - 1], family);
      }
    }
  }

  /** An action of a single family that its own rule does not skip is output, or one was before. */
  lemma EffectiveIsOutput(offers: seq<ResolvedAction>, own: set<Family>, item: ResolvedAction)
    requires TakeAll(NOTHING, offers).skip == own && IsSingle(item.action.Family()) && item.action.Family() !in own
    ensures AnyHas(Take(TakeAll(NOTHING, offers), item).actions, item.action.Family())
  {
    var so, family := TakeAll(NOTHING, offers), item.action.Family();
    OneMoreHas(so.actions, item, family);
    if family in so.singles {
      TakenIsOutput(offers, family);
    }
  }

  lemma OutputStays(so: Fold, item: ResolvedAction, family: Family)
    requires AnyHas(so.actions, family)
    ensures AnyHas(Take(so, item).actions, family)
  {
    OneMoreHas(so.actions, item, family);
  }

  lemma LastIsSingle(actions: seq<Action>, family: Family)
    requires actions != [] && family in SinglesOf(Effective(actions))
    ensures var n := |actions| - 1;
      || family in SinglesOf(Effective(actions[..n]))
      || (actions[n].Family() == family && IsSingle(family) && family !in LocalSkip(actions[..n]))
  {
  }

  lemma LastAction(actions: seq<Action>, brief: MatchedRule, captures: Captures, res: Option<Response>, body: bool)
    requires actions != []
    ensures var n := |actions| - 1;
      TakeAll(NOTHING, ActionOffers(actions, brief, captures, res, body)) ==
        var so := TakeAll(NOTHING, ActionOffers(actions[..n], brief, captures, res, body));
        var available := ForBodyAvailability(actions[n], body);
        if available.None? then so else Take(so, ResolvedAction(available.value, brief, captures, res))
  {
    NextAction(NOTHING, actions, |actions| - 1, brief, captures, res, body);
    assert actions[..|actions|] == actions;
  }

  lemma OwnSkipsAlone(actions: seq<Action>, brief: MatchedRule, captures: Captures, res: Option<Response>, body: bool)
    ensures TakeAll(NOTHING, ActionOffers(actions, brief, captures, res, body)).skip == LocalSkip(actions)
  {
    OwnSkipsInARun(NOTHING, actions, brief, captures, res, body);
    assert NOTHING.skip + LocalSkip(actions) == LocalSkip(actions);
  }

  lemma SingleIsAvailable(a: Action, body: bool)
    requires IsSingle(a.Family())
    ensures ForBodyAvailability(a, body) == Some(a)
  {
  }

  /** With nothing before it, a rule outputs an action of each single family the lint lists for it. */
  lemma {:induction false} AloneOutputsSingles(actions: seq<Action>, family: Family, brief: MatchedRule,
                                               captures: Captures, res: Option<Response>, body: bool)
    requires family in SinglesOf(Effective(actions))
    ensures AnyHas(TakeAll(NOTHING, ActionOffers(actions, brief, captures, res, body)).actions, family)
    decreases |actions|
  {
    var init, last := actions[..|actions| - 1], actions[|actions| - 1];
    var available := ForBodyAvailability(last, body);
    LastIsSingle(actions, family);
    LastAction(actions, brief, captures, res, body);
    var offers := ActionOffers(init, brief, captures, res, body);
    if family in SinglesOf(Effective(init)) {
      AloneOutputsSingles(init, family, brief, captures, res, body);
      if available.Some? {
        OutputStays(TakeAll(NOTHING, offers), ResolvedAction(available.value, brief, captures, res), family);
      }
    } else {
      SingleIsAvailable(last, body);
      OwnSkipsAlone(init, brief, captures, res, body);
      EffectiveIsOutput(offers, LocalSkip(init), ResolvedAction(last, brief, captures, res));
    }
  }

  // ---------------------------------------------------------------------------
  // When only one rule offers anything

  lemma {:induction false} NothingInTurn(per: seq<seq<ResolvedAction>>, order: seq<nat>)
    requires Within(order, |per|) && forall i :: 0 <= i < |order| ==> per[order[i]] == []
    ensures InTurn(per, order) == []
    decreases |order|
  {
    if order != [] {
      NothingInTurn(per, order[..|order| - 1]);
    }
  }

  lemma OnlyTurn(per: seq<seq<ResolvedAction>>, order: seq<nat>, j: nat)
    requires Within(order, |per|) && j < |order|
    requires forall i :: 0 <= i < |order| && i != j ==> per[order[i]] == []
    ensures InTurn(per, order) == per[order[j]]
  {
    InTurnSplit(per, order, j + 1);
    NothingInTurn(per, order[j + 1..]);
    NothingInTurn(per, order[..j]);
    assert order[..j + 1][..j] == order[..j];
  }

  predicate OnlyApplies(w: World, rules: seq<Rule>, v: nat, req: Request, res: Option<Response>, body: bool) {
    && v < |rules| && Applies(w, rules[v], req, res, body).Some?
    && forall u :: 0 <= u < |rules| && u != v ==> Applies(w, rules[u], req, res, body).None?
  }

  lemma OnlyRuleOffers(w: World, rules: seq<Rule>, v: nat, req: Request, res: Option<Response>, body: bool)
    requires OnlyApplies(w, rules, v, req, res, body)
    ensures AllOffers(w, rules, req, res, body) == RuleOffers(w, rules[v], req, res, body)
  {
    var per := OffersByRule(w, rules, req, res, body);
    var order := ResolutionOrder(rules);
    ResolutionOrderIsOrdered(rules);
    assert v in order;
    var j :| 0 <= j < |order| && order[j] == v;
    forall i | 0 <= i < |order| && i != j
      ensures per[order[i]] == []
    {
      OrderHasNoRepeats(rules, i);
      assert order[i] != v;
    }
    OnlyTurn(per, order, j);
  }

  /** Resolution outputs an action of the family from the rule. */
  predicate Wins(w: World, rules: seq<Rule>, v: nat, family: Family, req: Request, res: Option<Response>, body: bool)
    requires v < |rules|
  {
    IsOutput(LinearResolve(w, rules, req, res, body).actions, Location(Brief(rules[v])), family)
  }

  predicate IsOutput(output: seq<ResolvedAction>, location: (string, nat), family: Family) {
    exists i :: 0 <= i < |output| && Location(output[i].rule) == location && output[i].action.Family() == family
  }

  lemma OffersAloneAreOutput(rule: Rule, family: Family, captures: Captures, res: Option<Response>, body: bool)
    requires family in SingleFamilies(rule)
    ensures var offers := ActionOffers(rule.actions, Brief(rule), captures, res, body);
      IsOutput(TakeAll(NOTHING, offers).actions, Location(Brief(rule)), family)
  {
    var offers := ActionOffers(rule.actions, Brief(rule), captures, res, body);
    AloneOutputsSingles(rule.actions, family, Brief(rule), captures, res, body);
    OutputComesFromOffers(NOTHING, offers);
    OffersNameTheirRule(rule.actions, Brief(rule), captures, res, body);
    var output := TakeAll(NOTHING, offers).actions;
    var i :| 0 <= i < |output| && output[i].action.Family() == family;
    assert output[i] in offers;
  }

  /** If no other rule applies, resolution outputs an action of each of the rule's single families. */
  lemma OnlyRuleWins(w: World, rules: seq<Rule>, v: nat, family: Family, req: Request, res: Option<Response>,
                     body: bool)
    requires OnlyApplies(w, rules, v, req, res, body) && family in SingleFamilies(rules[v])
    ensures Wins(w, rules, v, family, req, res, body)
  {
    OnlyRuleOffers(w, rules, v, req, res, body);
    OffersAloneAreOutput(rules[v], family, Applies(w, rules[v], req, res, body).value, res, body);
  }

  // ---------------------------------------------------------------------------
  // Exactness

  lemma UnconditionalApplies(w: World, rule: Rule, req: Request, res: Option<Response>, body: bool)
    requires rule.conditions == [] && !rule.disabled && w.parse(req.url).Some?
    ensures Applies(w, rule, req, res, body) == MatcherMatch(w, rule.matcher, w.parse(req.url).value, req.url)
  {
  }

  /** A URL that one of two unconditional rules matches and the other does not. */
  lemma EscapesAlone(w: World, rules: seq<Rule>, u: nat, v: nat, req: Request, res: Option<Response>, body: bool)
    requires |rules| == 2 && u < 2 && v < 2 && u != v && w.parse(req.url).Some?
    requires rules[u].conditions == [] && !rules[u].disabled && rules[v].conditions == [] && !rules[v].disabled
    requires MatcherMatch(w, rules[u].matcher, w.parse(req.url).value, req.url).None?
    requires MatcherMatch(w, rules[v].matcher, w.parse(req.url).value, req.url).Some?
    ensures OnlyApplies(w, rules, v, req, res, body)
  {
    UnconditionalApplies(w, rules[u], req, res, body);
    UnconditionalApplies(w, rules[v], req, res, body);
  }

  /** For an uncovered query, some request makes the later rule win what the finding says it cannot. */
  lemma UncoveredFindingIsWrong(w: World, rules: seq<Rule>, globs: GlobSet, f: Finding, family: Family, like: Request,
                                res: Option<Response>, body: bool) returns (url: string)
    requires |rules| == 2 && QueriesExtend(w) && IsShadow(w, rules, globs, f) && family in f.families
    requires rules[f.later].conditions == [] && !QueryIsCovered(w, rules[f.earlier].matcher, rules[f.later].matcher)
    ensures Wins(w, rules, f.later, family, like.(url := url), res, body)
  {
    url := UncoveredQueryEscapes(w, rules[f.earlier].matcher, rules[f.later].matcher);
    var req := like.(url := url);
    EscapesAlone(w, rules, f.earlier, f.later, req, res, body);
    OnlyRuleWins(w, rules, f.later, family, req, res, body);
  }

  lemma CoveredNeverWins(w: World, rules: seq<Rule>, globs: GlobSet, f: Finding, family: Family, req: Request,
                         res: Option<Response>, body: bool)
    requires Lintable(rules, globs) && LocationsAreUnique(rules)
    requires IsShadow(w, rules, globs, f) && family in f.families
    requires QueryIsCovered(w, rules[f.earlier].matcher, rules[f.later].matcher)
    ensures !Wins(w, rules, f.later, family, req, res, body)
  {
    var output := LinearResolve(w, rules, req, res, body).actions;
    if Wins(w, rules, f.later, family, req, res, body) {
      var i :| 0 <= i < |output| && Location(output[i].rule) == Location(Brief(rules[f.later]))
        && output[i].action.Family() == family;
      ShadowedRuleNeverWins(w, rules, globs, f, family, req, res, body, output[i]);
    }
  }

  /** No request, response and body make the rule win the family. */
  ghost predicate NeverWins(w: World, rules: seq<Rule>, v: nat, family: Family)
    requires v < |rules|
  {
    forall req, res, body :: !Wins(w, rules, v, family, req, res, body)
  }

  lemma CoveredIsNever(w: World, rules: seq<Rule>, globs: GlobSet, f: Finding, family: Family)
    requires Lintable(rules, globs) && LocationsAreUnique(rules)
    requires IsShadow(w, rules, globs, f) && family in f.families
    requires QueryIsCovered(w, rules[f.earlier].matcher, rules[f.later].matcher)
    ensures NeverWins(w, rules, f.later, family)
  {
    forall req, res, body
      ensures !Wins(w, rules, f.later, family, req, res, body)
    {
      CoveredNeverWins(w, rules, globs, f, family, req, res, body);
    }
  }

  lemma UncoveredIsNotNever(w: World, rules: seq<Rule>, globs: GlobSet, f: Finding, family: Family)
    requires |rules| == 2 && QueriesExtend(w) && IsShadow(w, rules, globs, f) && family in f.families
    requires rules[f.later].conditions == [] && !QueryIsCovered(w, rules[f.earlier].matcher, rules[f.later].matcher)
    ensures !NeverWins(w, rules, f.later, family)
  {
    var like := Request("GET", "", [], [], None, None);
    var url := UncoveredFindingIsWrong(w, rules, globs, f, family, like, None, true);
    assert Wins(w, rules, f.later, family, like.(url := url), None, true);
  }

  /**
   A finding about an unconditional rule is true of the two rules it names if and only
   if the query is covered.
   */
  lemma FindingIsExact(w: World, rules: seq<Rule>, globs: GlobSet, f: Finding, family: Family)
    requires Lintable(rules, globs) && LocationsAreUnique(rules) && |rules| == 2 && QueriesExtend(w)
    requires IsShadow(w, rules, globs, f) && family in f.families && rules[f.later].conditions == []
    ensures NeverWins(w, rules, f.later, family) <==>
      QueryIsCovered(w, rules[f.earlier].matcher, rules[f.later].matcher)
  {
    if QueryIsCovered(w, rules[f.earlier].matcher, rules[f.later].matcher) {
      CoveredIsNever(w, rules, globs, f, family);
    } else {
      UncoveredIsNotNever(w, rules, globs, f, family);
    }
  }
}
