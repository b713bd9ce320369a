/**
 Deciding before the request body has arrived whether it will be needed, and the
 proof that resolution may stream past a body that is not.
 */
module BodyPlanning {
  import opened Text
  import opened Actions
  import opened Model
  import opened Matching
  import opened Resolution

  // ---------------------------------------------------------------------------
  // The decision

  /** A condition that could still hold once the body and a response are known. */
  predicate MayMatch(w: World, c: Condition, x: Context)
    decreases c
  {
    match c
    case BodyContains(_) => true
    case BodyRegex(_) => true
    case ResHeaderPresent(_) => true
    case ResHeaderContains(_, _) => true
    case StatusIs(_) => true
    case Any(cs) => exists i :: 0 <= i < |cs| && MayMatch(w, cs[i], x)
    case All(cs) => forall i :: 0 <= i < |cs| ==> MayMatch(w, cs[i], x)
    case Not(inner) => DependsOnRequestBody(inner) || DependsOnResponse(inner) || Holds(w, c, x)
    case _ => Holds(w, c, x)
  }

  predicate AllMayMatch(w: World, cs: seq<Condition>, x: Context) {
    forall i :: 0 <= i < |cs| ==> MayMatch(w, cs[i], x)
  }

  /** The rule matches the URL and nothing known so far rules its conditions out. */
  predicate Viable(w: World, rule: Rule, req: Request) {
    var url := w.parse(req.url);
    && !rule.disabled && url.Some?
    && MatcherMatch(w, rule.matcher, url.value, req.url).Some?
    && AllMayMatch(w, rule.conditions, Context(url, req, None, rule.line))
  }

  predicate UsesRequestBody(rule: Rule) {
    NeedsRequestBody(rule.conditions) || exists i :: 0 <= i < |rule.actions| && RequiresRequestBody(rule.actions[i])
  }

  predicate RequestBodyRequired(w: World, rules: seq<Rule>, req: Request) {
    exists idx :: 0 <= idx < |rules| && Viable(w, rules[idx], req) && UsesRequestBody(rules[idx])
  }

  // ---------------------------------------------------------------------------
  // Planning is safe

  /** A condition that holds with some body and response could have held before either was known. */
  lemma {:induction false} HoldsMayMatch(w: World, c: Condition, x: Context, y: Context)
    requires x.url == y.url && x.line == y.line && y.req.(body := x.req.body) == x.req && y.res.None?
    requires Holds(w, c, x)
    ensures MayMatch(w, c, y)
    decreases c
  {
    match c
    case Any(cs) =>
      var i :| 0 <= i < |cs| && Holds(w, cs[i], x);
      HoldsMayMatch(w, cs[i], x, y);
    case All(cs) =>
      forall i | 0 <= i < |cs|
        ensures MayMatch(w, cs[i], y)
      {
        HoldsMayMatch(w, cs[i], x, y);
      }
    case Not(inner) =>
      if !DependsOnRequestBody(inner) && !DependsOnResponse(inner) {
        HoldsIgnoresUnused(w, inner, x, y);
      }
    case _ =>
      if !DependsOnRequestBody(c) && !DependsOnResponse(c) {
        HoldsIgnoresUnused(w, c, x, y);
      }
  }

  /** The decision does not look at the body it is about. */
  lemma {:induction false} MayMatchIgnoresBody(w: World, c: Condition, x: Context, y: Context)
    requires x.url == y.url && x.line == y.line && y.req.(body := x.req.body) == x.req && x.res.None? && y.res.None?
    ensures MayMatch(w, c, x) == MayMatch(w, c, y)
    decreases c
  {
    match c
    case Any(cs) =>
      forall i | 0 <= i < |cs| {
        MayMatchIgnoresBody(w, cs[i], x, y);
      }
    case All(cs) =>
      forall i | 0 <= i < |cs| {
        MayMatchIgnoresBody(w, cs[i], x, y);
      }
    case Not(inner) =>
      if !DependsOnRequestBody(inner) {
        HoldsIgnoresUnused(w, c, x, y);
      }
    case _ =>
      if !DependsOnRequestBody(c) {
        HoldsIgnoresUnused(w, c, x, y);
      }
  }

  lemma DecisionIgnoresBody(w: World, rules: seq<Rule>, req: Request, body: seq<bv8>)
    ensures RequestBodyRequired(w, rules, req) == RequestBodyRequired(w, rules, req.(body := body))
  {
    forall idx | 0 <= idx < |rules|
      ensures Viable(w, rules[idx], req) == Viable(w, rules[idx], req.(body := body))
    {
      var url := w.parse(req.url);
      var rule := rules[idx];
      forall i | 0 <= i < |rule.conditions| {
        MayMatchIgnoresBody(w, rule.conditions[i], Context(url, req, None, rule.line),
                            Context(url, req.(body := body), None, rule.line));
      }
    }
  }

  /** Deletions name at least one property, as the parser demands. */
  predicate DeletesAreNonEmpty(rules: seq<Rule>) {
    forall r :: 0 <= r < |rules| ==> ActionsDeleteSomething(rules[r].actions)
  }

  predicate ActionsDeleteSomething(actions: seq<Action>) {
    forall i :: 0 <= i < |actions| && actions[i].Delete? ==> actions[i].ops != []
  }

  lemma {:induction false} OffersWithoutBodyActions(actions: seq<Action>, brief: MatchedRule, captures: Captures,
                                                    res: Option<Response>)
    requires ActionsDeleteSomething(actions)
    requires forall i :: 0 <= i < |actions| ==> !RequiresRequestBody(actions[i])
    ensures ActionOffers(actions, brief, captures, res, true) == ActionOffers(actions, brief, captures, res, false)
    decreases |actions|
  {
    if actions != [] {
      OffersWithoutBodyActions(actions[..|actions| - 1], brief, captures, res);
      var last := actions[|actions| - 1];
      if last.Delete? {
        assert forall op :: op in last.ops ==> !op.TouchesRequestBody();
      }
    }
  }

  /** A rule that is not viable, or does not use the body, offers the same with and without it. */
  lemma RuleOffersTheSame(w: World, rule: Rule, req: Request, body: seq<bv8>, other: seq<bv8>, res: Option<Response>)
    requires ActionsDeleteSomething(rule.actions)
    requires !(Viable(w, rule, req) && UsesRequestBody(rule))
    ensures RuleOffers(w, rule, req.(body := body), res, true) == RuleOffers(w, rule, req.(body := other), res, false)
  {
    var url := w.parse(req.url);
    var x := Context(url, req.(body := body), res, rule.line);
    var y := Context(url, req.(body := other), res, rule.line);
    if AllHold(w, rule.conditions, x) {
      forall i | 0 <= i < |rule.conditions|
        ensures MayMatch(w, rule.conditions[i], Context(url, req, None, rule.line))
      {
        HoldsMayMatch(w, rule.conditions[i], x, Context(url, req, None, rule.line));
      }
    }
    if !NeedsRequestBody(rule.conditions) {
      forall i | 0 <= i < |rule.conditions|
        ensures Holds(w, rule.conditions[i], x) == Holds(w, rule.conditions[i], y)
      {
        HoldsIgnoresUnused(w, rule.conditions[i], x, y);
      }
    }
    var captures := Applies(w, rule, x.req, res, true);
    if captures.Some? {
      OffersWithoutBodyActions(rule.actions, Brief(rule), captures.value, res);
    }
  }

  /**
   When the body is not required, resolution that never sees it gives exactly what
   resolution with it would have given, whatever the body and the response are.
   */
  lemma PlanningIsSafe(w: World, rules: seq<Rule>, req: Request, body: seq<bv8>, other: seq<bv8>, res: Option<Response>)
    requires DeletesAreNonEmpty(rules)
    requires !RequestBodyRequired(w, rules, req)
    ensures LinearResolve(w, rules, req.(body := body), res, true)
         == LinearResolve(w, rules, req.(body := other), res, false)
  {
    var per := OffersByRule(w, rules, req.(body := body), res, true);
    var per' := OffersByRule(w, rules, req.(body := other), res, false);
    forall idx | 0 <= idx < |rules|
      ensures per[idx] == per'[idx]
    {
      RuleOffersTheSame(w, rules[idx], req, body, other, res);
    }
    assert per == per';
  }

  lemma OrderOfOne(rules: seq<Rule>)
    requires |rules| == 1 && !rules[0].important
    ensures ResolutionOrder(rules) == [0]
  {
    var none: seq<nat> := [];
    assert IndicesOf(rules, true, 1) == none + none;
    assert IndicesOf(rules, false, 1) == none + [0];
  }

  lemma TurnOfOne(per: seq<seq<ResolvedAction>>)
    requires |per| == 1
    ensures InTurn(per, [0]) == per[0]
  {
    var none: seq<nat> := [];
    assert [0][..0] == none;
    assert InTurn(per, [0]) == [] + per[0];
  }

  lemma OneRuleAlone(w: World, rule: Rule, req: Request, res: Option<Response>, body: bool)
    requires !rule.important
    ensures AllOffers(w, [rule], req, res, body) == RuleOffers(w, rule, req, res, body)
  {
    OrderOfOne([rule]);
    TurnOfOne(OffersByRule(w, [rule], req, res, body));
  }

  function EmptyDeletion(): Rule {
    Rule("g", 1, "", Port(80), [Delete([])], [], false, false)
  }

  lemma EmptyDeletionOffers(w: World, url: UrlParts, req: Request, body: bool)
    requires w.parse(req.url) == Some(url) && url.EffectivePort() == Some(80)
    ensures RuleOffers(w, EmptyDeletion(), req, None, body)
         == if body then [ResolvedAction(Delete([]), Brief(EmptyDeletion()), NO_CAPTURES, None)] else []
  {
    var rule := EmptyDeletion();
    assert Applies(w, rule, req, None, body) == Some(NO_CAPTURES);
    assert ForBodyAvailability(Delete([]), body) == if body then Some(Delete([])) else None;
    OneActionOffers(Delete([]), Brief(rule), NO_CAPTURES, None, body);
  }

  lemma OneActionOffers(a: Action, brief: MatchedRule, captures: Captures, res: Option<Response>, body: bool)
    ensures ActionOffers([a], brief, captures, res, body) == Offer(a, brief, captures, res, body)
  {
    assert [a][..0] == [];
    assert ActionOffers([a], brief, captures, res, body) == [] + Offer(a, brief, captures, res, body);
  }

  lemma OneActionIsOutput(item: ResolvedAction)
    ensures TakeAll(NOTHING, [item]).actions != TakeAll(NOTHING, []).actions
  {
    assert [item][..0] == [];
    assert TakeAll(NOTHING, [item]) == Take(NOTHING, item);
  }

  /** Without the parser's guarantee planning would not be safe: an empty deletion is dropped. */
  lemma EmptyDeleteBreaksPlanning(w: World, url: UrlParts, req: Request)
    requires w.parse(req.url) == Some(url) && url.EffectivePort() == Some(80)
    ensures !RequestBodyRequired(w, [EmptyDeletion()], req)
    ensures LinearResolve(w, [EmptyDeletion()], req, None, true)
         != LinearResolve(w, [EmptyDeletion()], req, None, false)
  {
    EmptyDeletionOffers(w, url, req, true);
    EmptyDeletionOffers(w, url, req, false);
    OneRuleAlone(w, EmptyDeletion(), req, None, true);
    OneRuleAlone(w, EmptyDeletion(), req, None, false);
    OneActionIsOutput(ResolvedAction(Delete([]), Brief(EmptyDeletion()), NO_CAPTURES, None));
  }
}
