/**
 The actions of one rule that survive its own `skip` actions, and the single
 families among them.
 */
module Effects {
  import opened Actions
  import opened Model

  /** Families suppressed by the rule's own earlier `skip(...)` actions. */
  function LocalSkip(actions: seq<Action>): set<Family> {
    if actions == [] then {}
    else
      var before := LocalSkip(actions[..|actions| - 1]);
      var last := actions[|actions| - 1];
      if last.Family() in before then before else AfterSkip(before, last)
  }

  /** Actions that survive the rule's own earlier `skip(...)` actions. */
  function Effective(actions: seq<Action>): seq<Action> {
    if actions == [] then []
    else
      var init, last := actions[..|actions| - 1], actions[|actions| - 1];
      if last.Family() in LocalSkip(init) then Effective(init) else Effective(init) + [last]
  }

  method EffectiveActions(rule: Rule) returns (effective: seq<Action>)
    ensures effective == Effective(rule.actions)
  {
    var skip := new SkipState();
    effective := [];
    for k := 0 to |rule.actions|
      invariant fresh(skip) && skip.families == LocalSkip(rule.actions[..k])
      invariant effective == Effective(rule.actions[..k])
    {
      assert rule.actions[..k + 1][..k] == rule.actions[..k];
      if skip.Suppresses(rule.actions[k].Family()) {
        continue;
      }
      effective := effective + [rule.actions[k]];
      skip.Observe(rule.actions[k]);
    }
    assert rule.actions[..|rule.actions|] == rule.actions;
  }

  /** The single families of a list of actions, in order of first use. */
  function SinglesOf(actions: seq<Action>): seq<Family> {
    if actions == [] then []
    else
      var before := SinglesOf(actions[..|actions| - 1]);
      var family := actions[|actions| - 1].Family();
      if IsSingle(family) && family !in before then before + [family] else before
  }

  function SingleFamilies(rule: Rule): seq<Family> {
    SinglesOf(Effective(rule.actions))
  }

  lemma {:induction false} SinglesAreOffered(actions: seq<Action>, family: Family)
    ensures family in SinglesOf(actions) <==>
      IsSingle(family) && exists i :: 0 <= i < |actions| && actions[i].Family() == family
    decreases |actions|
  {
    if actions != [] {
      SinglesAreOffered(actions[..|actions| - 1], family);
    }
  }

  lemma {:induction false} EffectiveAreActions(actions: seq<Action>)
    ensures forall a :: a in Effective(actions) ==> a in actions
    decreases |actions|
  {
    if actions != [] {
      EffectiveAreActions(actions[..|actions| - 1]);
    }
  }
}
