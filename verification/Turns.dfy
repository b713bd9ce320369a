/**
 What the turn of one rule can add to the output of the fold.
 */
module Turns {
  import opened Text
  import opened Actions
  import opened Model
  import opened Resolution
  import opened Effects
  import opened Indices
  import opened RuleOrder

  /** After a rule has been considered, each single family it offers is taken or suppressed. */
  lemma {:induction false} OfferedIsSettled(f: Fold, items: seq<ResolvedAction>, k: nat)
    requires k < |items| && IsSingle(items[k].action.Family())
    ensures var after := TakeAll(f, items);
      items[k].action.Family() in after.skip || items[k].action.Family() in after.singles
    decreases |items|
  {
    if k < |items| - 1 {
      OfferedIsSettled(f, items[..|items| - 1], k);
    }
  }

  /** A single family that is taken or suppressed is not output again. */
  lemma {:induction false} SettledIsFinal(f: Fold, items: seq<ResolvedAction>, family: Family)
    requires IsSingle(family) && (family in f.skip || family in f.singles)
    ensures var after := TakeAll(f, items);
      && (family in after.skip || family in after.singles)
      && f.actions <= after.actions
      && forall i :: |f.actions| <= i < |after.actions| ==>
         after.actions[i].action.Family() != family && after.actions[i] in items
    decreases |items|
  {
    if items != [] {
      SettledIsFinal(f, items[..|items| - 1], family);
    }
  }

  lemma {:induction false} SingleActionIsOffered(actions: seq<Action>, family: Family, brief: MatchedRule,
                                                 captures: Captures, res: Option<Response>, body: bool) returns (k: nat)
    requires IsSingle(family) && exists a :: a in actions && a.Family() == family
    ensures var items := ActionOffers(actions, brief, captures, res, body);
      k < |items| && items[k].action.Family() == family
    decreases |actions|
  {
    var init, last := actions[..|actions| - 1], actions[|actions| - 1];
    if last.Family() == family {
      k := |ActionOffers(init, brief, captures, res, body)|;
    } else {
      k := SingleActionIsOffered(init, family, brief, captures, res, body);
    }
  }

  lemma SingleFamilyIsAnAction(rule: Rule, family: Family)
    requires family in SingleFamilies(rule)
    ensures IsSingle(family) && exists a :: a in rule.actions && a.Family() == family
  {
    SinglesAreOffered(Effective(rule.actions), family);
    EffectiveAreActions(rule.actions);
    var i :| 0 <= i < |Effective(rule.actions)| && Effective(rule.actions)[i].Family() == family;
    assert Effective(rule.actions)[i] in rule.actions;
  }

  lemma {:induction false} InTurnSplit(per: seq<seq<ResolvedAction>>, order: seq<nat>, n: nat)
    requires Within(order, |per|) && n <= |order|
    ensures InTurn(per, order) == InTurn(per, order[..n]) + InTurn(per, order[n..])
    decreases |order|
  {
    if n == |order| {
      assert order[..n] == order;
    } else {
      var init := order[..|order| - 1];
      InTurnSplit(per, init, n);
      assert init[..n] == order[..n];
      assert order[n..][..|order[n..]| - 1] == init[n..];
    }
  }

  /** When the rule at `j` is considered, families of an applying rule at `i < j` are settled. */
  lemma EarlierSettles(per: seq<seq<ResolvedAction>>, order: seq<nat>, i: nat, j: nat, k: nat)
    requires Within(order, |per|) && i < j < |order| && k < |per[order[i]]|
         && IsSingle(per[order[i]][k].action.Family())
    ensures var before := TakeAll(NOTHING, InTurn(per, order[..j]));
      var family := per[order[i]][k].action.Family();
      family in before.skip || family in before.singles
  {
    var family := per[order[i]][k].action.Family();
    var prefix := order[..j];
    InTurnSplit(per, prefix, i + 1);
    assert prefix[..i + 1] == order[..i + 1];
    NextOffers(per, order, i);
    OfferedIsSettled(TakeAll(NOTHING, InTurn(per, order[..i])), per[order[i]], k);
    TakeAllAppend(NOTHING, InTurn(per, order[..i + 1]), InTurn(per, prefix[i + 1..]));
    TakeAllMonotone(TakeAll(NOTHING, InTurn(per, order[..i + 1])), InTurn(per, prefix[i + 1..]));
  }

  /** A group and a line name one rule. */
  predicate LocationsAreUnique(rules: seq<Rule>) {
    forall i, j :: 0 <= i < j < |rules| ==> Location(Brief(rules[i])) != Location(Brief(rules[j]))
  }

  lemma {:induction false} OutputComesFromOffers(f: Fold, items: seq<ResolvedAction>)
    ensures f.actions <= TakeAll(f, items).actions
    ensures forall i :: |f.actions| <= i < |TakeAll(f, items).actions| ==> TakeAll(f, items).actions[i] in items
    decreases |items|
  {
    if items != [] {
      OutputComesFromOffers(f, items[..|items| - 1]);
    }
  }

  lemma {:induction false} OffersNameTheirRule(actions: seq<Action>, brief: MatchedRule, captures: Captures,
                                               res: Option<Response>, body: bool)
    ensures forall item :: item in ActionOffers(actions, brief, captures, res, body) ==> item.rule == brief
    decreases |actions|
  {
    if actions != [] {
      OffersNameTheirRule(actions[..|actions| - 1], brief, captures, res, body);
    }
  }

  /** Every offer of rule `v` names rule `v`. */
  ghost predicate NamesItsRule(per: seq<seq<ResolvedAction>>, rules: seq<Rule>) {
    |per| == |rules| && forall v, item :: 0 <= v < |per| && item in per[v] ==> item.rule == Brief(rules[v])
  }

  lemma RuleOffersNameTheirRule(w: World, rules: seq<Rule>, req: Request, res: Option<Response>, body: bool)
    ensures NamesItsRule(OffersByRule(w, rules, req, res, body), rules)
  {
    forall v | 0 <= v < |rules|
      ensures forall item :: item in RuleOffers(w, rules[v], req, res, body) ==> item.rule == Brief(rules[v])
    {
      var captures := Applies(w, rules[v], req, res, body);
      if captures.Some? {
        OffersNameTheirRule(rules[v].actions, Brief(rules[v]), captures.value, res, body);
      }
    }
  }

  lemma {:induction false} InTurnOmits(per: seq<seq<ResolvedAction>>, rules: seq<Rule>, order: seq<nat>, v: nat)
    requires NamesItsRule(per, rules) && LocationsAreUnique(rules) && Within(order, |per|) && v < |rules| && v !in order
    ensures forall item :: item in InTurn(per, order) ==> Location(item.rule) != Location(Brief(rules[v]))
    decreases |order|
  {
    if order != [] {
      var last := order[|order| - 1];
      assert last in order;
      InTurnOmits(per, rules, order[..|order| - 1], v);
    }
  }

  lemma {:induction false} OrderHasNoRepeats(rules: seq<Rule>, j: nat)
    requires j < |ResolutionOrder(rules)|
    ensures ResolutionOrder(rules)[j] !in ResolutionOrder(rules)[..j]
    ensures ResolutionOrder(rules)[j] !in ResolutionOrder(rules)[j + 1..]
  {
    ResolutionOrderIsOrdered(rules);
  }

  lemma OutputOfRule(per: seq<seq<ResolvedAction>>, rules: seq<Rule>, order: seq<nat>, j: nat, family: Family,
                     a: ResolvedAction)
    requires NamesItsRule(per, rules) && LocationsAreUnique(rules) && Within(order, |per|) && j < |order|
    requires order[j] !in order[..j] && order[j] !in order[j + 1..]
    requires var before := TakeAll(NOTHING, InTurn(per, order[..j]));
      var after := TakeAll(before, per[order[j]]);
      before.actions <= after.actions &&
      forall i :: |before.actions| <= i < |after.actions| ==> after.actions[i].action.Family() != family
    requires a in TakeAll(NOTHING, InTurn(per, order)).actions && Location(a.rule) == Location(Brief(rules[order[j]]))
    ensures a.action.Family() != family
  {
    var before := TakeAll(NOTHING, InTurn(per, order[..j]));
    var after := TakeAll(before, per[order[j]]);
    var final := TakeAll(NOTHING, InTurn(per, order));
    InTurnOmits(per, rules, order[..j], order[j]);
    InTurnOmits(per, rules, order[j + 1..], order[j]);
    OutputComesFromOffers(NOTHING, InTurn(per, order[..j]));
    OutputComesFromOffers(after, InTurn(per, order[j + 1..]));
    InTurnSplit(per, order, j + 1);
    TakeAllAppend(NOTHING, InTurn(per, order[..j + 1]), InTurn(per, order[j + 1..]));
    NextOffers(per, order, j);
    var i :| 0 <= i < |final.actions| && final.actions[i] == a;
    if |before.actions| <= i < |after.actions| {
      assert after.actions[i] == a;
    }
  }
}
