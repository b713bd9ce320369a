/**
 Shadow lint, and the proof that a rule it reports never wins when the query is covered.
 */
module ShadowLint {
  import opened Text
  import opened Actions
  import opened Model
  import opened Compiled
  import opened Resolution
  import opened Indices
  import opened RuleOrder
  import opened Effects
  import opened Subsumption
  import opened ShadowReport
  import opened Turns

  /** The earlier rule has no conditions and its matcher subsumes the later one's. */
  predicate Covers(w: World, earlier: Rule, later: Rule, globs: GlobSet) {
    earlier.conditions == [] && MatcherSubsumes(w, earlier.matcher, later.matcher, globs)
  }

  /** The subject is the one lint takes from these rules. */
  ghost predicate Describes(s: Subject, w: World, rules: seq<Rule>, globs: GlobSet) {
    && s.Valid() && InOrder(rules, s.ordered)
    && (forall v :: v in s.ordered <==> 0 <= v < |rules| && !rules[v].disabled)
    && (forall pos :: 0 <= pos < |s.ordered| ==> s.families[pos] == SingleFamilies(rules[s.ordered[pos]]))
    && forall e, pos :: 0 <= e < |s.ordered| && 0 <= pos < |s.ordered| ==>
         s.covers(e, pos) == Covers(w, rules[s.ordered[e]], rules[s.ordered[pos]], globs)
  }

  function EnabledBelow(rules: seq<Rule>, n: nat): (r: seq<nat>)
    requires n <= |rules|
    ensures Within(r, n) && NoRepeats(r) && forall v :: v in r <==> 0 <= v < n && !rules[v].disabled
  {
    if n == 0 then [] else EnabledBelow(rules, n - 1) + if rules[n - 1].disabled then [] else [n - 1]
  }

  /** Orders the enabled rules and gathers what the comparison needs of them. */
  method Prepare(w: World, rules: seq<Rule>, globs: GlobSet) returns (s: Subject)
    ensures Describes(s, w, rules, globs)
  {
    var ordered := Sort(rules, EnabledBelow(rules, |rules|));
    SortIsOrdered(rules, EnabledBelow(rules, |rules|));
    var families := seq(|ordered|, p requires 0 <= p < |ordered| => SingleFamilies(rules[ordered[p]]));
    s := Subject(ordered, families, (e: nat, pos: nat) => CoversAt(w, rules, globs, ordered, e, pos));
  }

  predicate CoversAt(w: World, rules: seq<Rule>, globs: GlobSet, ordered: seq<nat>, e: nat, pos: nat) {
    && e < |ordered| && pos < |ordered| && ordered[e] < |rules| && ordered[pos] < |rules|
    && Covers(w, rules[ordered[e]], rules[ordered[pos]], globs)
  }

  // ---------------------------------------------------------------------------
  // Shadowed rules never win

  /** The earlier rule of a sound finding applies whenever the later one does. */
  lemma EarlierApplies(w: World, earlier: Rule, later: Rule, globs: GlobSet, req: Request, res: Option<Response>,
                       body: bool)
    requires globs.Sound() && Registered(globs.ids, MatcherKeys(earlier.matcher))
    requires HostIsNormal(earlier.matcher) && HostIsNormal(later.matcher)
    requires !earlier.disabled && earlier.conditions == []
    requires MatcherSubsumes(w, earlier.matcher, later.matcher, globs)
         && QueryIsCovered(w, earlier.matcher, later.matcher)
    requires Applies(w, later, req, res, body).Some?
    ensures Applies(w, earlier, req, res, body).Some?
  {
    SubsumptionIsSound(w, earlier.matcher, later.matcher, w.parse(req.url).value, req.url, globs);
  }

  /** The rules as the parser and the compiler leave them. */
  ghost predicate Lintable(rules: seq<Rule>, globs: GlobSet) {
    && globs.Sound()
    && forall r :: 0 <= r < |rules| ==>
         Registered(globs.ids, MatcherKeys(rules[r].matcher)) && HostIsNormal(rules[r].matcher)
  }

  /** What a finding says: the earlier rule is ahead, covers the later one, and offers the families. */
  ghost predicate IsShadow(w: World, rules: seq<Rule>, globs: GlobSet, f: Finding) {
    && f.earlier < |rules| && f.later < |rules|
    && Before(rules, f.earlier, f.later)
    && !rules[f.earlier].disabled && !rules[f.later].disabled
    && Covers(w, rules[f.earlier], rules[f.later], globs)
    && f.families != []
    && forall family :: family in f.families ==>
         family in SingleFamilies(rules[f.earlier]) && family in SingleFamilies(rules[f.later])
  }

  lemma FindingsAreShadows(s: Subject, w: World, rules: seq<Rule>, globs: GlobSet, f: Finding)
    requires Describes(s, w, rules, globs) && f in s.FindingsFrom(0)
    ensures IsShadow(w, rules, globs, f)
  {
    var pos := FindingHasPosition(s, 0, f);
    var at := FindingIsShadow(s, pos, 0, s.families[pos], f);
    assert s.ordered[at] in s.ordered && s.ordered[pos] in s.ordered;
    assert s.covers(at, pos);
  }

  lemma ShadowTurns(rules: seq<Rule>, earlier: nat, j: nat) returns (i: nat)
    requires j < |ResolutionOrder(rules)| && earlier < |rules|
    requires Before(rules, earlier, ResolutionOrder(rules)[j])
    ensures i < j && ResolutionOrder(rules)[i] == earlier
  {
    ResolutionOrderIsOrdered(rules);
    var order := ResolutionOrder(rules);
    assert earlier in order;
    i :| 0 <= i < |order| && order[i] == earlier;
  }

  lemma ShadowerOffers(w: World, rules: seq<Rule>, globs: GlobSet, f: Finding, family: Family, req: Request,
                       res: Option<Response>, body: bool) returns (k: nat)
    requires Lintable(rules, globs) && IsShadow(w, rules, globs, f) && family in f.families
    requires QueryIsCovered(w, rules[f.earlier].matcher, rules[f.later].matcher)
    requires Applies(w, rules[f.later], req, res, body).Some?
    ensures var offers := RuleOffers(w, rules[f.earlier], req, res, body);
      k < |offers| && IsSingle(family) && offers[k].action.Family() == family
  {
    var earlier := rules[f.earlier];
    EarlierApplies(w, earlier, rules[f.later], globs, req, res, body);
    SingleFamilyIsAnAction(earlier, family);
    var captures := Applies(w, earlier, req, res, body).value;
    k := SingleActionIsOffered(earlier.actions, family, Brief(earlier), captures, res, body);
  }

  /** While a shadowed rule is considered, nothing of a reported family is output. */
  lemma ShadowedRuleAddsNothing(w: World, rules: seq<Rule>, globs: GlobSet, f: Finding, family: Family, req: Request,
                                res: Option<Response>, body: bool, j: nat)
    requires Lintable(rules, globs) && IsShadow(w, rules, globs, f) && family in f.families
    requires QueryIsCovered(w, rules[f.earlier].matcher, rules[f.later].matcher)
    requires j < |ResolutionOrder(rules)| && ResolutionOrder(rules)[j] == f.later
    ensures var per := OffersByRule(w, rules, req, res, body);
      var before := TakeAll(NOTHING, InTurn(per, ResolutionOrder(rules)[..j]));
      var after := TakeAll(before, per[f.later]);
      && before.actions <= after.actions
      && forall i :: |before.actions| <= i < |after.actions| ==> after.actions[i].action.Family() != family
  {
    var per := OffersByRule(w, rules, req, res, body);
    var order := ResolutionOrder(rules);
    var before := TakeAll(NOTHING, InTurn(per, order[..j]));
    if Applies(w, rules[f.later], req, res, body).Some? {
      var i := ShadowTurns(rules, f.earlier, j);
      var k := ShadowerOffers(w, rules, globs, f, family, req, res, body);
      EarlierSettles(per, order, i, j, k);
      SettledIsFinal(before, per[f.later], family);
    } else {
      assert per[f.later] == [];
    }
  }

  /**
   Shadow lint is sound: if a finding's query is covered, no resolution of any request,
   with or without body and response, outputs an action of a listed family from the
   shadowed rule.
   */
  lemma ShadowedRuleNeverWins(w: World, rules: seq<Rule>, globs: GlobSet, f: Finding, family: Family, req: Request,
                              res: Option<Response>, body: bool, a: ResolvedAction)
    requires Lintable(rules, globs) && LocationsAreUnique(rules)
    requires IsShadow(w, rules, globs, f) && family in f.families
    requires QueryIsCovered(w, rules[f.earlier].matcher, rules[f.later].matcher)
    requires a in LinearResolve(w, rules, req, res, body).actions && Location(a.rule) == Location(Brief(rules[f.later]))
    ensures a.action.Family() != family
  {
    var per := OffersByRule(w, rules, req, res, body);
    var order := ResolutionOrder(rules);
    ResolutionOrderIsOrdered(rules);
    assert f.later in order;
    var j :| 0 <= j < |order| && order[j] == f.later;
    ShadowedRuleAddsNothing(w, rules, globs, f, family, req, res, body, j);
    RuleOffersNameTheirRule(w, rules, req, res, body);
    OrderHasNoRepeats(rules, j);
    OutputOfRule(per, rules, order, j, family, a);
  }
}
