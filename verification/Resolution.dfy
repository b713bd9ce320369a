/**
 Resolution of a request: the fold over offered actions, and what its result
 means without reference to the fold.
 */
module Resolution {
  import opened Text
  import opened Actions
  import opened Model
  import opened Matching

  // ---------------------------------------------------------------------------
  // What each rule offers

  /** The action as it can run with or without the request body, if it can run at all. */
  function ForBodyAvailability(a: Action, available: bool): Option<Action> {
    if available then Some(a)
    else match a
      case ReqBody(_) => None
      case Delete(ops) =>
        var kept := WithoutBodyDeletes(ops);
        if kept == [] then None else Some(Delete(kept))
      case _ => Some(a)
  }

  function Brief(rule: Rule): MatchedRule {
    MatchedRule(rule.group, rule.line, rule.raw)
  }

  function Offer(a: Action, brief: MatchedRule, captures: Captures, res: Option<Response>,
                 body: bool): seq<ResolvedAction>
  {
    var available := ForBodyAvailability(a, body);
    if available.None? then [] else [ResolvedAction(available.value, brief, captures, res)]
  }

  function ActionOffers(actions: seq<Action>, brief: MatchedRule, captures: Captures, res: Option<Response>,
                        body: bool): seq<ResolvedAction>
  {
    if actions == [] then []
    else
      ActionOffers(actions[..|actions| - 1], brief, captures, res, body)
      + Offer(actions[|actions| - 1], brief, captures, res, body)
  }

  predicate NeedsRequestBody(conditions: seq<Condition>) {
    exists i :: 0 <= i < |conditions| && DependsOnRequestBody(conditions[i])
  }

  /** The captures with which a rule applies to a request, if it does. */
  function Applies(w: World, rule: Rule, req: Request, res: Option<Response>, body: bool): Option<Captures> {
    var url := w.parse(req.url);
    if rule.disabled || url.None? then None
    else if !body && NeedsRequestBody(rule.conditions) then None
    else if !AllHold(w, rule.conditions, Context(url, req, res, rule.line)) then None
    else MatcherMatch(w, rule.matcher, url.value, req.url)
  }

  function RuleOffers(w: World, rule: Rule, req: Request, res: Option<Response>, body: bool): seq<ResolvedAction> {
    var captures := Applies(w, rule, req, res, body);
    if captures.None? then []
    else ActionOffers(rule.actions, Brief(rule), captures.value, res, body)
  }

  /** What every rule offers, by its index. */
  function OffersByRule(w: World, rules: seq<Rule>, req: Request, res: Option<Response>,
                        body: bool): (per: seq<seq<ResolvedAction>>)
    ensures |per| == |rules|
  {
    seq(|rules|, i requires 0 <= i < |rules| => RuleOffers(w, rules[i], req, res, body))
  }

  /** What the rules at the given indices offer, in that order. */
  function InTurn(per: seq<seq<ResolvedAction>>, order: seq<nat>): seq<ResolvedAction>
    requires forall i :: 0 <= i < |order| ==> order[i] < |per|
  {
    if order == [] then [] else InTurn(per, order[..|order| - 1]) + per[order[|order| - 1]]
  }

  /** Everything offered to a request, in resolution order. */
  function AllOffers(w: World, rules: seq<Rule>, req: Request, res: Option<Response>, body: bool): seq<ResolvedAction> {
    InTurn(OffersByRule(w, rules, req, res, body), ResolutionOrder(rules))
  }

  // ---------------------------------------------------------------------------
  // The fold

  datatype Fold = Fold(
    actions: seq<ResolvedAction>,
    matched: seq<MatchedRule>,
    seen: set<(string, nat)>,
    singles: set<Family>,
    skip: set<Family>)

  const NOTHING := Fold([], [], {}, {}, {})

  function Location(rule: MatchedRule): (string, nat) {
    (rule.group, rule.line)
  }

  /** Outputs an offered action unless it is suppressed or its single family is taken. */
  function Take(f: Fold, item: ResolvedAction): Fold {
    var family := item.action.Family();
    if family in f.skip || (IsSingle(family) && family in f.singles) then f
    else Fold(
      f.actions + [item],
      if Location(item.rule) in f.seen then f.matched else f.matched + [item.rule],
      f.seen + {Location(item.rule)},
      if IsSingle(family) then f.singles + {family} else f.singles,
      AfterSkip(f.skip, item.action))
  }

  function TakeAll(f: Fold, items: seq<ResolvedAction>): Fold {
    if items == [] then f else Take(TakeAll(f, items[..|items| - 1]), items[|items| - 1])
  }

  lemma {:induction false} TakeAllAppend(f: Fold, a: seq<ResolvedAction>, b: seq<ResolvedAction>)
    ensures TakeAll(f, a + b) == TakeAll(TakeAll(f, a), b)
    decreases |b|
  {
    if b == [] {
      assert a + b == a;
    } else {
      assert (a + b)[..|a + b| - 1] == a + b[..|b| - 1];
      TakeAllAppend(f, a, b[..|b| - 1]);
    }
  }

  /** Suppressed families stay suppressed and taken families stay taken. */
  lemma {:induction false} TakeAllMonotone(f: Fold, items: seq<ResolvedAction>)
    ensures f.skip <= TakeAll(f, items).skip && f.singles <= TakeAll(f, items).singles
    ensures f.actions <= TakeAll(f, items).actions
    decreases |items|
  {
    if items != [] {
      TakeAllMonotone(f, items[..|items| - 1]);
    }
  }

  // ---------------------------------------------------------------------------
  // Resolution over all rules

  function IndicesOf(rules: seq<Rule>, important: bool, n: nat): (r: seq<nat>)
    requires n <= |rules|
    ensures forall i :: 0 <= i < |r| ==> r[i] < n
  {
    if n == 0 then []
    else IndicesOf(rules, important, n - 1) + (if rules[n - 1].important == important then [n - 1] else [])
  }

  /** Important rules first, each kind in source order. */
  function ResolutionOrder(rules: seq<Rule>): (r: seq<nat>)
    ensures forall i :: 0 <= i < |r| ==> r[i] < |rules|
  {
    IndicesOf(rules, true, |rules|) + IndicesOf(rules, false, |rules|)
  }

  /** Resolution that considers every rule of the snapshot. */
  function LinearResolve(w: World, rules: seq<Rule>, req: Request, res: Option<Response>, body: bool): ResolveResult {
    var f := TakeAll(NOTHING, AllOffers(w, rules, req, res, body));
    ResolveResult(f.actions, f.matched)
  }

  // ---------------------------------------------------------------------------
  // What the result means

  /**
   Whether an offered action is output, judged by the offers alone: no earlier
   output `skip` covers its family, and if its family is single no earlier output
   action has that family.
   */
  ghost predicate Kept(items: seq<ResolvedAction>, i: nat)
    requires i < |items|
    decreases i
  {
    var family := items[i].action.Family();
    && (forall j: nat | j < i && Kept(items, j) :: !items[j].action.Covers(family))
    && (IsSingle(family) ==> forall j: nat | j < i && Kept(items, j) :: items[j].action.Family() != family)
  }

  ghost function KeptActions(items: seq<ResolvedAction>, n: nat): seq<ResolvedAction>
    requires n <= |items|
  {
    if n == 0 then []
    else KeptActions(items, n - 1) + (if Kept(items, n - 1) then [items[n - 1]] else [])
  }

  /** No earlier action comes from the same place. */
  predicate IsFirstUse(actions: seq<ResolvedAction>, k: nat)
    requires k < |actions|
  {
    forall j :: 0 <= j < k ==> Location(actions[j].rule) != Location(actions[k].rule)
  }

  /** The rules of the first `n` actions, each at its first use. */
  function FirstUses(actions: seq<ResolvedAction>, n: nat): seq<MatchedRule>
    requires n <= |actions|
  {
    if n == 0 then []
    else FirstUses(actions, n - 1) + (if IsFirstUse(actions, n - 1) then [actions[n - 1].rule] else [])
  }

  lemma {:induction false} FirstUsesOfPrefix(actions: seq<ResolvedAction>, more: seq<ResolvedAction>, n: nat)
    requires n <= |actions| && actions <= more
    ensures FirstUses(actions, n) == FirstUses(more, n)
    decreases n
  {
    if n > 0 {
      FirstUsesOfPrefix(actions, more, n - 1);
    }
  }

  /** A kept offer among the first `n` has the family. */
  ghost predicate HasKept(items: seq<ResolvedAction>, n: nat, family: Family)
    requires n <= |items|
  {
    exists j: nat | j < n && Kept(items, j) :: items[j].action.Family() == family
  }

  /** A kept offer among the first `n` is a `skip` that covers the family. */
  ghost predicate CoversKept(items: seq<ResolvedAction>, n: nat, family: Family)
    requires n <= |items|
  {
    exists j: nat | j < n && Kept(items, j) :: items[j].action.Covers(family)
  }

  ghost predicate SinglesAre(singles: set<Family>, items: seq<ResolvedAction>, n: nat)
    requires n <= |items|
  {
    forall family :: family in singles <==> IsSingle(family) && HasKept(items, n, family)
  }

  ghost predicate SkipIs(skip: set<Family>, items: seq<ResolvedAction>, n: nat)
    requires n <= |items|
  {
    forall family :: family in skip <==> CoversKept(items, n, family)
  }

  predicate MatchedAre(f: Fold) {
    && f.matched == FirstUses(f.actions, |f.actions|)
    && (forall location :: location in f.seen ==>
          exists k :: 0 <= k < |f.actions| && Location(f.actions[k].rule) == location)
    && (forall k :: 0 <= k < |f.actions| ==> Location(f.actions[k].rule) in f.seen)
  }

  /** One step keeps the matched rules in agreement with the output. */
  lemma TakeKeepsMatched(f: Fold, item: ResolvedAction)
    requires MatchedAre(f)
    ensures MatchedAre(Take(f, item))
  {
    var after := Take(f, item);
    if after != f {
      var n := |f.actions|;
      FirstUsesOfPrefix(f.actions, after.actions, n);
      assert after.actions[n] == item;
      assert IsFirstUse(after.actions, n) <==> Location(item.rule) !in f.seen;
      forall location | location in after.seen
        ensures exists k :: 0 <= k < |after.actions| && Location(after.actions[k].rule) == location
      {
        if location in f.seen {
          var k :| 0 <= k < n && Location(f.actions[k].rule) == location;
          assert after.actions[k] == f.actions[k];
        }
      }
    }
  }

  lemma TakeNext(items: seq<ResolvedAction>, n: nat)
    requires 0 < n <= |items|
    ensures TakeAll(NOTHING, items[..n]) == Take(TakeAll(NOTHING, items[..n - 1]), items[n - 1])
  {
    assert items[..n][..n - 1] == items[..n - 1];
  }

  lemma {:induction false} FoldKeepsMatched(items: seq<ResolvedAction>, n: nat)
    requires n <= |items|
    ensures MatchedAre(TakeAll(NOTHING, items[..n]))
    decreases n
  {
    if n > 0 {
      FoldKeepsMatched(items, n - 1);
      TakeNext(items, n);
      TakeKeepsMatched(TakeAll(NOTHING, items[..n - 1]), items[n - 1]);
    }
  }

  /** The fold has output the kept ones of the first `n` offers, and keeps its books accordingly. */
  ghost predicate Reflects(f: Fold, items: seq<ResolvedAction>, n: nat)
    requires n <= |items|
  {
    f.actions == KeptActions(items, n) && SinglesAre(f.singles, items, n) && SkipIs(f.skip, items, n)
  }

  lemma {:induction false} FoldReflects(items: seq<ResolvedAction>, n: nat)
    requires n <= |items|
    ensures Reflects(TakeAll(NOTHING, items[..n]), items, n)
    decreases n
  {
    if n > 0 {
      FoldReflects(items, n - 1);
      TakeNext(items, n);
      TakeFollowsKept(TakeAll(NOTHING, items[..n - 1]), items, n);
    }
  }

  /** The state of the fold after `n` offers, in terms of the offers. */
  lemma FoldMeaning(items: seq<ResolvedAction>, n: nat)
    requires n <= |items|
    ensures var f := TakeAll(NOTHING, items[..n]); Reflects(f, items, n) && MatchedAre(f)
  {
    FoldReflects(items, n);
    FoldKeepsMatched(items, n);
  }

  /** An action is kept exactly when the bookkeeping lets it through. */
  lemma KeptIsTaken(singles: set<Family>, skip: set<Family>, items: seq<ResolvedAction>, n: nat)
    requires n < |items| && SinglesAre(singles, items, n) && SkipIs(skip, items, n)
    ensures var family := items[n].action.Family();
      Kept(items, n) <==> family !in skip && !(IsSingle(family) && family in singles)
  {
    var family := items[n].action.Family();
    assert family in skip <==> CoversKept(items, n, family);
  }

  lemma NextHasKept(items: seq<ResolvedAction>, n: nat, family: Family)
    requires n < |items|
    ensures HasKept(items, n + 1, family) <==>
      HasKept(items, n, family) || (Kept(items, n) && items[n].action.Family() == family)
  {
    if HasKept(items, n + 1, family) {
      var j: nat :| j < n + 1 && Kept(items, j) && items[j].action.Family() == family;
      assert j < n || j == n;
    }
  }

  lemma NextCoversKept(items: seq<ResolvedAction>, n: nat, family: Family)
    requires n < |items|
    ensures CoversKept(items, n + 1, family) <==>
      CoversKept(items, n, family) || (Kept(items, n) && items[n].action.Covers(family))
  {
    if CoversKept(items, n + 1, family) {
      var j: nat :| j < n + 1 && Kept(items, j) && items[j].action.Covers(family);
      assert j < n || j == n;
    }
  }

  lemma SinglesGrow(singles: set<Family>, items: seq<ResolvedAction>, n: nat)
    requires n < |items| && SinglesAre(singles, items, n)
    ensures var family := items[n].action.Family();
      SinglesAre(if Kept(items, n) && IsSingle(family) then singles + {family} else singles, items, n + 1)
  {
    forall family
      ensures HasKept(items, n + 1, family) <==>
        HasKept(items, n, family) || (Kept(items, n) && items[n].action.Family() == family)
    {
      NextHasKept(items, n, family);
    }
  }

  lemma SkipGrows(skip: set<Family>, items: seq<ResolvedAction>, n: nat)
    requires n < |items| && SkipIs(skip, items, n)
    ensures SkipIs(if Kept(items, n) then AfterSkip(skip, items[n].action) else skip, items, n + 1)
  {
    forall family
      ensures CoversKept(items, n + 1, family) <==>
        CoversKept(items, n, family) || (Kept(items, n) && items[n].action.Covers(family))
    {
      NextCoversKept(items, n, family);
    }
    forall family
      ensures family in AfterSkip(skip, items[n].action) <==> family in skip || items[n].action.Covers(family)
    {
      AfterSkipCovers(skip, items[n].action, family);
    }
  }

  lemma TakeFollowsKept(f: Fold, items: seq<ResolvedAction>, n: nat)
    requires 0 < n <= |items| && Reflects(f, items, n - 1)
    ensures Reflects(Take(f, items[n - 1]), items, n)
  {
    KeptIsTaken(f.singles, f.skip, items, n - 1);
    SinglesGrow(f.singles, items, n - 1);
    SkipGrows(f.skip, items, n - 1);
  }

  /**
   The output of resolution is exactly the kept offers in order, and the matched
   rules are exactly the rules of the output, each once and at its first use.
   */
  lemma ResolutionMeaning(w: World, rules: seq<Rule>, req: Request, res: Option<Response>, body: bool)
    ensures var items := AllOffers(w, rules, req, res, body);
      var r := LinearResolve(w, rules, req, res, body);
      && r.actions == KeptActions(items, |items|)
      && r.matched == FirstUses(r.actions, |r.actions|)
  {
    var items := AllOffers(w, rules, req, res, body);
    assert items[..|items|] == items;
    FoldMeaning(items, |items|);
  }

  /** The chosen are those at the given positions, in order, among the first `n`. */
  predicate Selects<T(==)>(items: seq<T>, n: nat, at: seq<nat>, chosen: seq<T>) {
    && |at| == |chosen| && n <= |items|
    && (forall k :: 0 <= k < |at| ==> at[k] < n && chosen[k] == items[at[k]])
    && forall j, k :: 0 <= j < k < |at| ==> at[j] < at[k]
  }

  lemma SelectsNext<T>(items: seq<T>, n: nat, at: seq<nat>, chosen: seq<T>)
    requires n < |items| && Selects(items, n, at, chosen)
    ensures Selects(items, n + 1, at, chosen) && Selects(items, n + 1, at + [n], chosen + [items[n]])
  {
  }

  ghost predicate AllKept(items: seq<ResolvedAction>, at: seq<nat>) {
    forall k :: 0 <= k < |at| ==> at[k] < |items| && Kept(items, at[k])
  }

  lemma OneMoreKept(items: seq<ResolvedAction>, at: seq<nat>, n: nat)
    requires AllKept(items, at) && n < |items| && Kept(items, n)
    ensures AllKept(items, at + [n])
  {
  }

  /** Every output action was kept, and output order is offer order. */
  lemma {:induction false} KeptActionsAreOrdered(items: seq<ResolvedAction>, n: nat) returns (at: seq<nat>)
    requires n <= |items|
    ensures Selects(items, n, at, KeptActions(items, n)) && AllKept(items, at)
    decreases n
  {
    if n == 0 {
      at := [];
    } else {
      at := KeptActionsAreOrdered(items, n - 1);
      SelectsNext(items, n - 1, at, KeptActions(items, n - 1));
      if Kept(items, n - 1) {
        OneMoreKept(items, at, n - 1);
        at := at + [n - 1];
      } else {
        assert KeptActions(items, n) == KeptActions(items, n - 1);
      }
    }
  }

  /** Among the output, single families are unique and nothing follows a `skip` that covers it. */
  lemma OutputIsConsistent(items: seq<ResolvedAction>, i: nat, j: nat)
    requires i < j < |TakeAll(NOTHING, items).actions|
    ensures var out := TakeAll(NOTHING, items).actions;
      && !out[i].action.Covers(out[j].action.Family())
      && (IsSingle(out[j].action.Family()) ==> out[i].action.Family() != out[j].action.Family())
  {
    assert items[..|items|] == items;
    FoldMeaning(items, |items|);
    var at := KeptActionsAreOrdered(items, |items|);
    assert at[i] < at[j];
  }

  /** When a location identifies a rule, the matched rules are those of the output and no others. */
  lemma {:induction false} FirstUsesAreTheRules(actions: seq<ResolvedAction>, n: nat)
    requires n <= |actions|
    requires forall j, k :: (0 <= j < k < n && Location(actions[j].rule) == Location(actions[k].rule)
                             ==> actions[j].rule == actions[k].rule)
    ensures forall k :: 0 <= k < n ==> actions[k].rule in FirstUses(actions, n)
    ensures forall rule :: rule in FirstUses(actions, n) ==> exists k :: 0 <= k < n && actions[k].rule == rule
    ensures forall a, b :: 0 <= a < b < |FirstUses(actions, n)| ==>
      Location(FirstUses(actions, n)[a]) != Location(FirstUses(actions, n)[b])
    decreases n
  {
    if n > 0 {
      FirstUsesAreTheRules(actions, n - 1);
      var before := FirstUses(actions, n - 1);
      if IsFirstUse(actions, n - 1) {
        forall a | 0 <= a < |before|
          ensures Location(before[a]) != Location(actions[n - 1].rule)
        {
          assert before[a] in before;
        }
      } else {
        var j :| 0 <= j < n - 1 && Location(actions[j].rule) == Location(actions[n - 1].rule);
        assert actions[j].rule in before;
      }
    }
  }
}
