/**
 Lint of one rule's own actions: actions behind the rule's own `skip`, and single
 families it uses more than once.
 */
module ActionLint {
  import opened Text
  import opened Actions
  import opened Model
  import opened Resolution
  import opened Indices
  import opened RuleOrder
  import opened Effects
  import opened Turns

  // ---------------------------------------------------------------------------
  // Actions behind the rule's own skip

  /** The action at `k` comes after a `skip` of the same rule that covers its family. */
  predicate BehindSkip(actions: seq<Action>, k: nat) {
    k < |actions| && actions[k].Family() in LocalSkip(actions[..k])
  }

  method ActionsAfterSkip(rule: Rule) returns (ineffective: set<Family>)
    ensures forall family :: family in ineffective <==>
      exists k :: 0 <= k < |rule.actions| && BehindSkip(rule.actions, k) && rule.actions[k].Family() == family
  {
    var skip := new SkipState();
    ineffective := {};
    for k := 0 to |rule.actions|
      invariant fresh(skip) && skip.families == LocalSkip(rule.actions[..k])
      invariant forall family :: family in ineffective <==>
        exists i :: 0 <= i < k && BehindSkip(rule.actions, i) && rule.actions[i].Family() == family
    {
      assert rule.actions[..k + 1][..k] == rule.actions[..k];
      if skip.Suppresses(rule.actions[k].Family()) {
        ineffective := ineffective + {rule.actions[k].Family()};
        assert BehindSkip(rule.actions, k);
        continue;
      }
      skip.Observe(rule.actions[k]);
    }
  }

  /**
   What a rule's own `skip(...)` actions do in a real run. They have the effect the
   lint computes from the rule alone, unless `skip` itself is already suppressed,
   and then they have none.
   */
  lemma {:induction false} OwnSkipsInARun(f: Fold, actions: seq<Action>, brief: MatchedRule, captures: Captures,
                                          res: Option<Response>, body: bool)
    ensures TakeAll(f, ActionOffers(actions, brief, captures, res, body)).skip ==
      if SkipFamily in f.skip then f.skip else f.skip + LocalSkip(actions)
    decreases |actions|
  {
    if actions != [] {
      var n := |actions| - 1;
      OwnSkipsInARun(f, actions[..n], brief, captures, res, body);
      assert actions[..n + 1] == actions;
      NextAction(f, actions, n, brief, captures, res, body);
      var before := TakeAll(f, ActionOffers(actions[..n], brief, captures, res, body));
      OwnSkipStep(before, f.skip, LocalSkip(actions[..n]), actions[n], brief, captures, res, body);
    }
  }

  lemma OwnSkipStep(g: Fold, entry: set<Family>, own: set<Family>, a: Action, brief: MatchedRule, captures: Captures,
                    res: Option<Response>, body: bool)
    requires g.skip == if SkipFamily in entry then entry else entry + own
    ensures var available := ForBodyAvailability(a, body);
      var after := if available.None? then g else Take(g, ResolvedAction(available.value, brief, captures, res));
      var ownAfter := if a.Family() in own then own else AfterSkip(own, a);
      after.skip == if SkipFamily in entry then entry else entry + ownAfter
  {
    if a.Skip? && SkipFamily !in entry && SkipFamily !in own && a.families != {} {
      assert g.skip + a.families == entry + (own + a.families);
    } else if a.Skip? && a.families == {} {
      assert entry + ALL_FAMILIES == ALL_FAMILIES;
    }
  }

  /** Some output action is a `skip` that covers the family. */
  predicate AnyCovers(output: seq<ResolvedAction>, family: Family) {
    exists i :: 0 <= i < |output| && output[i].action.Covers(family)
  }

  /** When the rule considered at turn `j` comes to its action at `k`, the family of that action is suppressed. */
  predicate SuppressedAt(w: World, rules: seq<Rule>, req: Request, res: Option<Response>, body: bool, j: nat, k: nat)
    requires j < |ResolutionOrder(rules)| && k < |rules[ResolutionOrder(rules)[j]].actions|
    requires Applies(w, rules[ResolutionOrder(rules)[j]], req, res, body).Some?
  {
    var rule := rules[ResolutionOrder(rules)[j]];
    var captures := Applies(w, rule, req, res, body).value;
    var offers := ActionOffers(rule.actions[..k], Brief(rule), captures, res, body);
    rule.actions[k].Family() in TakeAll(BeforeTurn(w, rules, req, res, body, j), offers).skip
  }

  /** What has been output when the rule at turn `j` is considered. */
  function BeforeTurn(w: World, rules: seq<Rule>, req: Request, res: Option<Response>, body: bool, j: nat): Fold
    requires j < |ResolutionOrder(rules)|
  {
    TakeAll(NOTHING, InTurn(OffersByRule(w, rules, req, res, body), ResolutionOrder(rules)[..j]))
  }

  /**
   In a run, an action behind its rule's own `skip` is suppressed if and only if no rule
   before it has output a `skip` that covers `skip`, or one has output a `skip` that
   covers the action.
   */
  lemma SuppressionIsExact(w: World, rules: seq<Rule>, req: Request, res: Option<Response>, body: bool, j: nat, k: nat)
    requires j < |ResolutionOrder(rules)| && BehindSkip(rules[ResolutionOrder(rules)[j]].actions, k)
    requires Applies(w, rules[ResolutionOrder(rules)[j]], req, res, body).Some?
    ensures var so := BeforeTurn(w, rules, req, res, body, j);
      SuppressedAt(w, rules, req, res, body, j, k) <==>
      !AnyCovers(so.actions, SkipFamily) || AnyCovers(so.actions, rules[ResolutionOrder(rules)[j]].actions[k].Family())
  {
    var rule := rules[ResolutionOrder(rules)[j]];
    var so := InTurn(OffersByRule(w, rules, req, res, body), ResolutionOrder(rules)[..j]);
    var captures := Applies(w, rule, req, res, body).value;
    OwnSkipsInARun(TakeAll(NOTHING, so), rule.actions[..k], Brief(rule), captures, res, body);
    SkipIsOutput(so, SkipFamily);
    SkipIsOutput(so, rule.actions[k].Family());
  }

  /** The rule has an action that suppresses `skip`. */
  predicate SkipsSkip(rule: Rule) {
    exists i :: 0 <= i < |rule.actions| && rule.actions[i].Covers(SkipFamily)
  }

  lemma {:induction false} OffersDoNotCover(actions: seq<Action>, family: Family, brief: MatchedRule,
                                            captures: Captures, res: Option<Response>, body: bool)
    requires forall i :: 0 <= i < |actions| ==> !actions[i].Covers(family)
    ensures !AnyCovers(ActionOffers(actions, brief, captures, res, body), family)
    decreases |actions|
  {
    if actions != [] {
      OffersDoNotCover(actions[..|actions| - 1], family, brief, captures, res, body);
    }
  }

  lemma {:induction false} TurnsDoNotCover(per: seq<seq<ResolvedAction>>, order: seq<nat>, family: Family)
    requires Within(order, |per|) && forall i :: 0 <= i < |order| ==> !AnyCovers(per[order[i]], family)
    ensures !AnyCovers(InTurn(per, order), family)
    decreases |order|
  {
    if order != [] {
      TurnsDoNotCover(per, order[..|order| - 1], family);
    }
  }

  /**
   What the lint says of an action behind `skip` is true of every request if no enabled rule
   that takes its turn before suppresses `skip`.
   */
  lemma ReportedActionIsSuppressed(w: World, rules: seq<Rule>, req: Request, res: Option<Response>, body: bool,
                                   j: nat, k: nat)
    requires j < |ResolutionOrder(rules)| && BehindSkip(rules[ResolutionOrder(rules)[j]].actions, k)
    requires Applies(w, rules[ResolutionOrder(rules)[j]], req, res, body).Some?
    requires forall i :: 0 <= i < j ==>
      rules[ResolutionOrder(rules)[i]].disabled || !SkipsSkip(rules[ResolutionOrder(rules)[i]])
    ensures SuppressedAt(w, rules, req, res, body, j, k)
  {
    var per, order := OffersByRule(w, rules, req, res, body), ResolutionOrder(rules);
    forall i | 0 <= i < j
      ensures !AnyCovers(per[order[i]], SkipFamily)
    {
      var rule := rules[order[i]];
      var captures := Applies(w, rule, req, res, body);
      if captures.Some? {
        OffersDoNotCover(rule.actions, SkipFamily, Brief(rule), captures.value, res, body);
      }
    }
    var before := InTurn(per, order[..j]);
    TurnsDoNotCover(per, order[..j], SkipFamily);
    OutputComesFromOffers(NOTHING, before);
    SuppressionIsExact(w, rules, req, res, body, j, k);
  }

  lemma {:induction false} SkipIsOutput(items: seq<ResolvedAction>, family: Family)
    ensures family in TakeAll(NOTHING, items).skip <==> AnyCovers(TakeAll(NOTHING, items).actions, family)
    decreases |items|
  {
    if items != [] {
      var so, item := TakeAll(NOTHING, items[..|items| - 1]), items[|items| - 1];
      SkipIsOutput(items[..|items| - 1], family);
      AfterSkipCovers(so.skip, item.action, family);
      OneMoreCovers(so.actions, item, family);
    }
  }

  lemma OneMoreCovers(output: seq<ResolvedAction>, item: ResolvedAction, family: Family)
    ensures AnyCovers(output + [item], family) <==> AnyCovers(output, family) || item.action.Covers(family)
  {
    assert (output + [item])[|output|] == item;
    if i :| 0 <= i < |output| && output[i].action.Covers(family) {
      assert (output + [item])[i] == output[i];
    }
  }

  // ---------------------------------------------------------------------------
  // A rule whose own skip is suppressed

  function SkippingSkip(): Rule {
    Rule("g", 1, "", Port(80), [Skip({SkipFamily})], [], false, false)
  }

  function SkippingHost(): Rule {
    Rule("g", 2, "", Port(80), [Skip({Host}), Plain(Host, "x")], [], false, false)
  }

  lemma OrderOfTwo(rules: seq<Rule>)
    requires |rules| == 2 && !rules[0].important && !rules[1].important
    ensures ResolutionOrder(rules) == [0, 1]
  {
    var none: seq<nat> := [];
    assert IndicesOf(rules, true, 1) == none + none;
    assert IndicesOf(rules, true, 2) == none + none;
    assert IndicesOf(rules, false, 1) == none + [0];
    assert IndicesOf(rules, false, 2) == [0] + [1];
  }

  lemma TurnsOfTwo(per: seq<seq<ResolvedAction>>)
    requires |per| == 2
    ensures InTurn(per, [0, 1]) == per[0] + per[1]
  {
    assert [0, 1][..1] == [0] && [0][..0] == [];
    assert InTurn(per, [0]) == [] + per[0];
  }

  lemma OffersOfBoth(w: World, a: Rule, b: Rule, req: Request, res: Option<Response>, body: bool)
    requires !a.important && !b.important
    ensures AllOffers(w, [a, b], req, res, body) == RuleOffers(w, a, req, res, body) + RuleOffers(w, b, req, res, body)
  {
    OrderOfTwo([a, b]);
    TurnsOfTwo(OffersByRule(w, [a, b], req, res, body));
  }

  lemma ActionsOfferInOrder(a: Action, b: Action, brief: MatchedRule, captures: Captures, res: Option<Response>,
                            body: bool)
    requires ForBodyAvailability(a, body) == Some(a) && ForBodyAvailability(b, body) == Some(b)
    ensures ActionOffers([a], brief, captures, res, body) == [ResolvedAction(a, brief, captures, res)]
    ensures ActionOffers([a, b], brief, captures, res, body) ==
      [ResolvedAction(a, brief, captures, res), ResolvedAction(b, brief, captures, res)]
  {
    assert [a, b][..1] == [a] && [a][..0] == [];
    var none: seq<Action> := [];
    assert ActionOffers(none, brief, captures, res, body) == [];
  }

  lemma OneTaken(f: Fold, items: seq<ResolvedAction>, item: ResolvedAction)
    ensures TakeAll(f, items + [item]) == Take(TakeAll(f, items), item)
  {
    assert (items + [item])[..|items|] == items;
  }

  lemma SuppressedSkipIsIgnored(first: ResolvedAction, second: ResolvedAction, third: ResolvedAction)
    requires first.action == Skip({SkipFamily}) && second.action == Skip({Host}) && third.action == Plain(Host, "x")
    ensures third in TakeAll(NOTHING, [first] + [second, third]).actions
  {
    OneTaken(NOTHING, [], first);
    OneTaken(NOTHING, [first], second);
    OneTaken(NOTHING, [first, second], third);
    assert [first] + [second, third] == [first, second] + [third] && [first] + [second] == [first, second];
    var one := TakeAll(NOTHING, [] + [first]);
    assert one.skip == {SkipFamily} && one.singles == {};
    assert Take(one, second) == one;
    assert [] + [first] == [first];
    assert Take(one, third).actions == one.actions + [third];
  }

  /**
   Below `skip(skip)`, the lint calls the action of a rule `skip(host) host(x)` ineffective,
   and every request that the rules match is resolved to it.
   */
  lemma SuppressedSkipMisleadsLint(w: World, url: UrlParts, req: Request, res: Option<Response>, body: bool)
    requires w.parse(req.url) == Some(url) && url.EffectivePort() == Some(80)
    ensures BehindSkip(SkippingHost().actions, 1)
    ensures ResolvedAction(Plain(Host, "x"), Brief(SkippingHost()), NO_CAPTURES, res)
         in LinearResolve(w, [SkippingSkip(), SkippingHost()], req, res, body).actions
  {
    var one, two := SkippingSkip(), SkippingHost();
    OffersOfBoth(w, one, two, req, res, body);
    assert Applies(w, one, req, res, body) == Some(NO_CAPTURES);
    assert Applies(w, two, req, res, body) == Some(NO_CAPTURES);
    ActionsOfferInOrder(Skip({SkipFamily}), Skip({SkipFamily}), Brief(one), NO_CAPTURES, res, body);
    ActionsOfferInOrder(Skip({Host}), Plain(Host, "x"), Brief(two), NO_CAPTURES, res, body);
    SuppressedSkipIsIgnored(ResolvedAction(Skip({SkipFamily}), Brief(one), NO_CAPTURES, res),
                            ResolvedAction(Skip({Host}), Brief(two), NO_CAPTURES, res),
                            ResolvedAction(Plain(Host, "x"), Brief(two), NO_CAPTURES, res));
    OwnSkipOfHost();
  }

  lemma OwnSkipOfHost()
    ensures BehindSkip(SkippingHost().actions, 1)
  {
    var none: seq<Action> := [];
    var before := SkippingHost().actions[..1];
    assert before == [Skip({Host})] && before[..0] == none;
    assert LocalSkip(none) == {};
    assert LocalSkip(before) == {Host};
  }

  // ---------------------------------------------------------------------------
  // Single families used more than once

  /** The action at `k` has a single family that the rule has used before. */
  predicate Repeats(actions: seq<Action>, k: nat) {
    && k < |actions| && IsSingle(actions[k].Family())
    && exists j :: 0 <= j < k && actions[j].Family() == actions[k].Family()
  }

  method DuplicateSingleFamilies(effective: seq<Action>) returns (duplicate: set<Family>)
    ensures forall family :: family in duplicate <==>
      exists k :: 0 <= k < |effective| && Repeats(effective, k) && effective[k].Family() == family
  {
    var seen := {};
    duplicate := {};
    for k := 0 to |effective|
      invariant forall family :: family in seen <==>
        IsSingle(family) && exists i :: 0 <= i < k && effective[i].Family() == family
      invariant forall family :: family in duplicate <==>
        exists i :: 0 <= i < k && Repeats(effective, i) && effective[i].Family() == family
    {
      var family := effective[k].Family();
      assert Repeats(effective, k) <==> family in seen;
      if IsSingle(family) {
        if family in seen {
          duplicate := duplicate + {family};
        }
        seen := seen + {family};
      }
    }
  }

  /** A family repeated among the effective actions is repeated in the rule. */
  lemma {:induction false} EffectiveRepeats(actions: seq<Action>, k: nat) returns (m: nat)
    requires Repeats(Effective(actions), k)
    ensures Repeats(actions, m) && actions[m].Family() == Effective(actions)[k].Family()
    decreases |actions|
  {
    var n := |actions| - 1;
    var before := Effective(actions[..n]);
    if k < |before| {
      var j :| 0 <= j < k && Effective(actions)[j].Family() == Effective(actions)[k].Family();
      assert before[j] == Effective(actions)[j] && before[k] == Effective(actions)[k];
      m := EffectiveRepeats(actions[..n], k);
    } else {
      m := n;
      var j :| 0 <= j < k && Effective(actions)[j].Family() == Effective(actions)[k].Family();
      EffectiveAreActions(actions[..n]);
      assert before[j] in actions[..n];
    }
  }

  function Without(actions: seq<Action>, k: nat): seq<Action>
    requires k < |actions|
  {
    actions[..k] + actions[k + 1..]
  }

  lemma {:induction false} ActionOffersAppend(a: seq<Action>, b: seq<Action>, brief: MatchedRule, captures: Captures,
                                              res: Option<Response>, body: bool)
    ensures ActionOffers(a + b, brief, captures, res, body) ==
      ActionOffers(a, brief, captures, res, body) + ActionOffers(b, brief, captures, res, body)
    decreases |b|
  {
    if b == [] {
      assert a + b == a;
    } else {
      ActionOffersAppend(a, b[..|b| - 1], brief, captures, res, body);
      assert (a + b)[..|a + b| - 1] == a + b[..|b| - 1];
    }
  }

  lemma RepeatAddsNothing(f: Fold, actions: seq<Action>, k: nat, brief: MatchedRule, captures: Captures,
                          res: Option<Response>, body: bool)
    requires Repeats(actions, k)
    ensures TakeAll(f, ActionOffers(actions[..k + 1], brief, captures, res, body))
         == TakeAll(f, ActionOffers(actions[..k], brief, captures, res, body))
  {
    var family := actions[k].Family();
    var j :| 0 <= j < k && actions[j].Family() == family;
    assert actions[..k][j] in actions[..k];
    var m := SingleActionIsOffered(actions[..k], family, brief, captures, res, body);
    OfferedIsSettled(f, ActionOffers(actions[..k], brief, captures, res, body), m);
    NextAction(f, actions, k, brief, captures, res, body);
  }

  lemma TakeInParts(f: Fold, a: seq<Action>, b: seq<Action>, brief: MatchedRule, captures: Captures,
                    res: Option<Response>, body: bool)
    ensures TakeAll(f, ActionOffers(a + b, brief, captures, res, body))
         == TakeAll(TakeAll(f, ActionOffers(a, brief, captures, res, body)),
                    ActionOffers(b, brief, captures, res, body))
  {
    ActionOffersAppend(a, b, brief, captures, res, body);
    TakeAllAppend(f, ActionOffers(a, brief, captures, res, body), ActionOffers(b, brief, captures, res, body));
  }

  /** Actions that leave the same behind leave the same behind when more follow. */
  lemma SameAfterMore(f: Fold, a: seq<Action>, b: seq<Action>, more: seq<Action>, brief: MatchedRule,
                      captures: Captures, res: Option<Response>, body: bool)
    requires TakeAll(f, ActionOffers(a, brief, captures, res, body))
          == TakeAll(f, ActionOffers(b, brief, captures, res, body))
    ensures TakeAll(f, ActionOffers(a + more, brief, captures, res, body))
         == TakeAll(f, ActionOffers(b + more, brief, captures, res, body))
  {
    TakeInParts(f, a, more, brief, captures, res, body);
    TakeInParts(f, b, more, brief, captures, res, body);
  }

  lemma WithoutRepeat(f: Fold, actions: seq<Action>, k: nat, brief: MatchedRule, captures: Captures,
                      res: Option<Response>, body: bool)
    requires Repeats(actions, k)
    ensures TakeAll(f, ActionOffers(Without(actions, k), brief, captures, res, body))
         == TakeAll(f, ActionOffers(actions, brief, captures, res, body))
  {
    RepeatAddsNothing(f, actions, k, brief, captures, res, body);
    SameAfterMore(f, actions[..k], actions[..k + 1], actions[k + 1..], brief, captures, res, body);
    Rejoin(actions, k + 1);
  }

  /** The rules with the action at `k` of rule `v` taken out. */
  function Dropping(rules: seq<Rule>, v: nat, k: nat): seq<Rule>
    requires v < |rules| && k < |rules[v].actions|
  {
    rules[v := rules[v].(actions := Without(rules[v].actions, k))]
  }

  lemma {:induction false} DroppingKeepsOrder(rules: seq<Rule>, v: nat, k: nat, important: bool, n: nat)
    requires v < |rules| && k < |rules[v].actions| && n <= |rules|
    ensures IndicesOf(Dropping(rules, v, k), important, n) == IndicesOf(rules, important, n)
    decreases n
  {
    if n > 0 {
      DroppingKeepsOrder(rules, v, k, important, n - 1);
    }
  }

  lemma DroppingInATurn(w: World, rules: seq<Rule>, v: nat, k: nat, req: Request, res: Option<Response>, body: bool,
                        f: Fold, u: nat)
    requires v < |rules| && Repeats(rules[v].actions, k) && u < |rules|
    ensures TakeAll(f, RuleOffers(w, Dropping(rules, v, k)[u], req, res, body))
         == TakeAll(f, RuleOffers(w, rules[u], req, res, body))
  {
    if u == v {
      var captures := Applies(w, rules[v], req, res, body);
      assert Applies(w, Dropping(rules, v, k)[v], req, res, body) == captures;
      if captures.Some? {
        WithoutRepeat(f, rules[v].actions, k, Brief(rules[v]), captures.value, res, body);
      }
    }
  }

  lemma SameAfterTurn(per: seq<seq<ResolvedAction>>, other: seq<seq<ResolvedAction>>, order: seq<nat>, n: nat)
    requires |per| == |other| && Within(order, |per|) && n < |order|
    requires TakeAll(NOTHING, InTurn(other, order[..n])) == TakeAll(NOTHING, InTurn(per, order[..n]))
    requires var so := TakeAll(NOTHING, InTurn(per, order[..n]));
      TakeAll(so, other[order[n]]) == TakeAll(so, per[order[n]])
    ensures TakeAll(NOTHING, InTurn(other, order[..n + 1])) == TakeAll(NOTHING, InTurn(per, order[..n + 1]))
  {
    NextOffers(per, order, n);
    NextOffers(other, order, n);
  }

  lemma {:induction false} DroppingInTurns(w: World, rules: seq<Rule>, v: nat, k: nat, req: Request,
                                           res: Option<Response>, body: bool, order: seq<nat>, n: nat)
    requires v < |rules| && Repeats(rules[v].actions, k) && Within(order, |rules|) && n <= |order|
    ensures TakeAll(NOTHING, InTurn(OffersByRule(w, Dropping(rules, v, k), req, res, body), order[..n]))
         == TakeAll(NOTHING, InTurn(OffersByRule(w, rules, req, res, body), order[..n]))
    decreases n
  {
    if n > 0 {
      DroppingInTurns(w, rules, v, k, req, res, body, order, n - 1);
      var per := OffersByRule(w, rules, req, res, body);
      DroppingInATurn(w, rules, v, k, req, res, body, TakeAll(NOTHING, InTurn(per, order[..n - 1])), order[n - 1]);
      SameAfterTurn(per, OffersByRule(w, Dropping(rules, v, k), req, res, body), order, n - 1);
    }
  }

  /** Taking a repeated action out of its rule changes the resolution of no request. */
  lemma RepeatedActionIsRedundant(w: World, rules: seq<Rule>, v: nat, k: nat, req: Request, res: Option<Response>,
                                  body: bool)
    requires v < |rules| && Repeats(rules[v].actions, k)
    ensures LinearResolve(w, Dropping(rules, v, k), req, res, body) == LinearResolve(w, rules, req, res, body)
  {
    var order := ResolutionOrder(rules);
    DroppingKeepsOrder(rules, v, k, true, |rules|);
    DroppingKeepsOrder(rules, v, k, false, |rules|);
    assert order[..|order|] == order;
    DroppingInTurns(w, rules, v, k, req, res, body, order, |order|);
  }
}
