/**
 The order in which rules take their turns, and what the rules offer in it.
 */
module RuleOrder {
  import opened Text
  import opened Actions
  import opened Model
  import opened Resolution
  import opened Indices

  /** Important rules come first, then source order decides. */
  predicate Before(rules: seq<Rule>, a: nat, b: nat)
    requires a < |rules| && b < |rules|
  {
    if rules[a].important == rules[b].important then a < b else rules[a].important
  }

  ghost predicate InOrder(rules: seq<Rule>, indices: seq<nat>) {
    && Within(indices, |rules|)
    && forall i, j :: 0 <= i < j < |indices| ==> Before(rules, indices[i], indices[j])
  }

  function Insert(rules: seq<Rule>, idx: nat, sorted: seq<nat>): (r: seq<nat>)
    requires idx < |rules| && Within(sorted, |rules|)
    ensures forall v :: v in r <==> v == idx || v in sorted
    ensures Within(r, |rules|)
  {
    if sorted == [] || Before(rules, idx, sorted[0]) then [idx] + sorted
    else [sorted[0]] + Insert(rules, idx, sorted[1..])
  }

  function Sort(rules: seq<Rule>, indices: seq<nat>): (r: seq<nat>)
    requires Within(indices, |rules|)
    ensures forall v :: v in r <==> v in indices
    ensures Within(r, |rules|)
  {
    if indices == [] then [] else Insert(rules, indices[0], Sort(rules, indices[1..]))
  }

  lemma {:induction false} InsertKeepsOrder(rules: seq<Rule>, idx: nat, sorted: seq<nat>)
    requires idx < |rules| && InOrder(rules, sorted) && idx !in sorted
    ensures InOrder(rules, Insert(rules, idx, sorted))
    decreases |sorted|
  {
    if sorted != [] && !Before(rules, idx, sorted[0]) {
      InsertKeepsOrder(rules, idx, sorted[1..]);
      var rest := Insert(rules, idx, sorted[1..]);
      forall j | 0 <= j < |rest|
        ensures Before(rules, sorted[0], rest[j])
      {
        assert rest[j] in rest;
      }
    }
  }

  lemma {:induction false} SortIsOrdered(rules: seq<Rule>, indices: seq<nat>)
    requires Within(indices, |rules|) && NoRepeats(indices)
    ensures InOrder(rules, Sort(rules, indices))
    decreases |indices|
  {
    if indices != [] {
      SortIsOrdered(rules, indices[1..]);
      InsertKeepsOrder(rules, indices[0], Sort(rules, indices[1..]));
    }
  }

  lemma {:induction false} IndicesOfMembers(rules: seq<Rule>, important: bool, n: nat)
    requires n <= |rules|
    ensures forall v :: v in IndicesOf(rules, important, n) <==> 0 <= v < n && rules[v].important == important
    decreases n
  {
    if n > 0 {
      IndicesOfMembers(rules, important, n - 1);
    }
  }

  /** Indices below `n` of rules of one importance. */
  predicate AreBelow(rules: seq<Rule>, indices: seq<nat>, important: bool, n: nat)
    requires n <= |rules|
  {
    forall i :: 0 <= i < |indices| ==> indices[i] < n && rules[indices[i]].important == important
  }

  lemma LaterIsAfter(rules: seq<Rule>, indices: seq<nat>, next: nat)
    requires next < |rules| && InOrder(rules, indices) && AreBelow(rules, indices, rules[next].important, next)
    ensures InOrder(rules, indices + [next])
  {
  }

  lemma {:induction false} IndicesOfAreBelow(rules: seq<Rule>, important: bool, n: nat)
    requires n <= |rules|
    ensures AreBelow(rules, IndicesOf(rules, important, n), important, n)
    decreases n
  {
    if n > 0 {
      IndicesOfAreBelow(rules, important, n - 1);
      var before, now := IndicesOf(rules, important, n - 1), IndicesOf(rules, important, n);
      assert forall i :: 0 <= i < |now| ==> now[i] == if i < |before| then before[i] else n - 1;
    }
  }

  lemma {:induction false} IndicesOfRise(rules: seq<Rule>, important: bool, n: nat)
    requires n <= |rules|
    ensures InOrder(rules, IndicesOf(rules, important, n))
    decreases n
  {
    if n > 0 {
      IndicesOfRise(rules, important, n - 1);
      IndicesOfAreBelow(rules, important, n - 1);
      if rules[n - 1].important == important {
        LaterIsAfter(rules, IndicesOf(rules, important, n - 1), n - 1);
      }
    }
  }

  lemma IndicesOfAreOrdered(rules: seq<Rule>, important: bool, n: nat)
    requires n <= |rules|
    ensures InOrder(rules, IndicesOf(rules, important, n))
    ensures forall v :: v in IndicesOf(rules, important, n) <==> 0 <= v < n && rules[v].important == important
  {
    IndicesOfMembers(rules, important, n);
    IndicesOfRise(rules, important, n);
  }

  lemma ResolutionOrderIsOrdered(rules: seq<Rule>)
    ensures InOrder(rules, ResolutionOrder(rules))
    ensures forall v :: v in ResolutionOrder(rules) <==> 0 <= v < |rules|
  {
    IndicesOfAreOrdered(rules, true, |rules|);
    IndicesOfAreOrdered(rules, false, |rules|);
    var a := IndicesOf(rules, true, |rules|);
    var b := IndicesOf(rules, false, |rules|);
    forall i, j | 0 <= i < |a| && 0 <= j < |b|
      ensures Before(rules, a[i], b[j])
    {
      assert a[i] in a && b[j] in b;
    }
  }

  /** The members of `order` that satisfy `keep`, in order. */
  function Select(order: seq<nat>, keep: set<nat>): (r: seq<nat>)
    ensures forall v :: v in r <==> v in order && v in keep
  {
    if order == [] then []
    else
      var last := order[|order| - 1];
      Select(order[..|order| - 1], keep) + if last in keep then [last] else []
  }

  lemma {:induction false} SelectKeepsOrder(rules: seq<Rule>, order: seq<nat>, keep: set<nat>)
    requires InOrder(rules, order)
    ensures InOrder(rules, Select(order, keep))
    decreases |order|
  {
    if order != [] {
      var init := order[..|order| - 1];
      SelectKeepsOrder(rules, init, keep);
      var chosen := Select(init, keep);
      forall i | 0 <= i < |chosen|
        ensures chosen[i] in init
      {
        assert chosen[i] in chosen;
      }
    }
  }

  /** There is only one way to put a set of indices in order. */
  lemma {:induction false} OrderIsUnique(rules: seq<Rule>, a: seq<nat>, b: seq<nat>)
    requires InOrder(rules, a) && InOrder(rules, b)
    requires forall v :: v in a <==> v in b
    ensures a == b
    decreases |a|
  {
    FirstIsMember(a);
    FirstIsMember(b);
    if a != [] {
      var x, y := a[|a| - 1], b[|b| - 1];
      LastIsGreatest(rules, a, y);
      LastIsGreatest(rules, b, x);
      var a', b' := a[..|a| - 1], b[..|b| - 1];
      forall v
        ensures v in a' <==> v in b'
      {
        MembersBeforeLast(rules, a, v);
        MembersBeforeLast(rules, b, v);
      }
      OrderIsUnique(rules, a', b');
      assert a == a' + [x] && b == b' + [y];
    }
  }

  lemma FirstIsMember(b: seq<nat>)
    ensures b == [] || b[0] in b
  {
  }

  lemma MembersBeforeLast(rules: seq<Rule>, a: seq<nat>, v: nat)
    requires InOrder(rules, a) && a != []
    ensures v in a[..|a| - 1] <==> v in a && v != a[|a| - 1]
  {
    if v in a && v != a[|a| - 1] {
      var i :| 0 <= i < |a| && a[i] == v;
      assert a[..|a| - 1][i] == v;
    }
  }

  lemma LastIsGreatest(rules: seq<Rule>, a: seq<nat>, v: nat)
    requires InOrder(rules, a) && v in a
    ensures v == a[|a| - 1] || Before(rules, v, a[|a| - 1])
  {
    var i :| 0 <= i < |a| && a[i] == v;
  }

  // ---------------------------------------------------------------------------
  // Offers in turn

  lemma InTurnAppend(per: seq<seq<ResolvedAction>>, order: seq<nat>, last: nat)
    requires Within(order, |per|) && last < |per|
    ensures InTurn(per, order + [last]) == InTurn(per, order) + per[last]
  {
    assert (order + [last])[..|order|] == order;
  }

  lemma SelectWithin(order: seq<nat>, keep: set<nat>, n: nat)
    requires Within(order, n)
    ensures Within(Select(order, keep), n)
  {
    var chosen := Select(order, keep);
    forall i | 0 <= i < |chosen|
      ensures chosen[i] < n
    {
      assert chosen[i] in chosen;
    }
  }

  lemma {:induction false} OffersOfSelected(per: seq<seq<ResolvedAction>>, order: seq<nat>, keep: set<nat>)
    requires Within(order, |per|) && Within(Select(order, keep), |per|)
    requires forall i :: 0 <= i < |order| && order[i] !in keep ==> per[order[i]] == []
    ensures InTurn(per, order) == InTurn(per, Select(order, keep))
    decreases |order|
  {
    if order != [] {
      var init, last := order[..|order| - 1], order[|order| - 1];
      SelectWithin(init, keep, |per|);
      OffersOfSelected(per, init, keep);
      if last in keep {
        InTurnAppend(per, Select(init, keep), last);
      } else {
        assert Select(order, keep) == Select(init, keep);
      }
    }
  }

  /** Sorting some rules is picking them from the resolution order. */
  lemma SortIsSelection(rules: seq<Rule>, indices: seq<nat>, keep: set<nat>)
    requires NoRepeats(indices) && Within(indices, |rules|) && forall v :: v in keep <==> v in indices
    ensures Sort(rules, indices) == Select(ResolutionOrder(rules), keep)
  {
    var order := ResolutionOrder(rules);
    ResolutionOrderIsOrdered(rules);
    SelectKeepsOrder(rules, order, keep);
    SortIsOrdered(rules, indices);
    OrderIsUnique(rules, Sort(rules, indices), Select(order, keep));
  }

  lemma OffersOfKept(rules: seq<Rule>, per: seq<seq<ResolvedAction>>, keep: set<nat>)
    requires |per| == |rules| && forall v :: 0 <= v < |rules| && v !in keep ==> per[v] == []
    ensures Within(Select(ResolutionOrder(rules), keep), |per|)
    ensures InTurn(per, Select(ResolutionOrder(rules), keep)) == InTurn(per, ResolutionOrder(rules))
  {
    SelectWithin(ResolutionOrder(rules), keep, |per|);
    OffersOfSelected(per, ResolutionOrder(rules), keep);
  }

  lemma InTurnOfSorted(rules: seq<Rule>, per: seq<seq<ResolvedAction>>, indices: seq<nat>)
    requires |per| == |rules| && NoRepeats(indices) && Within(indices, |rules|)
    requires forall v :: 0 <= v < |rules| && v !in indices ==> per[v] == []
    ensures InTurn(per, Sort(rules, indices)) == InTurn(per, ResolutionOrder(rules))
  {
    var keep := set v | v in indices;
    SortIsSelection(rules, indices, keep);
    OffersOfKept(rules, per, keep);
  }

  lemma NextOffers(per: seq<seq<ResolvedAction>>, order: seq<nat>, n: nat)
    requires n < |order| && Within(order, |per|)
    ensures TakeAll(NOTHING, InTurn(per, order[..n + 1]))
         == TakeAll(TakeAll(NOTHING, InTurn(per, order[..n])), per[order[n]])
  {
    assert order[..n + 1][..n] == order[..n];
    TakeAllAppend(NOTHING, InTurn(per, order[..n]), per[order[n]]);
  }

  lemma NextAction(f: Fold, actions: seq<Action>, k: nat, brief: MatchedRule, captures: Captures,
                   res: Option<Response>, body: bool)
    requires k < |actions|
    ensures TakeAll(f, ActionOffers(actions[..k + 1], brief, captures, res, body)) ==
      var so := TakeAll(f, ActionOffers(actions[..k], brief, captures, res, body));
      var available := ForBodyAvailability(actions[k], body);
      if available.None? then so else Take(so, ResolvedAction(available.value, brief, captures, res))
  {
    assert actions[..k + 1][..k] == actions[..k];
    var so := ActionOffers(actions[..k], brief, captures, res, body);
    var offer := Offer(actions[k], brief, captures, res, body);
    TakeAllAppend(f, so, offer);
    if offer != [] {
      var none: seq<ResolvedAction> := [];
      assert offer[..0] == none;
      assert TakeAll(TakeAll(f, so), none) == TakeAll(f, so);
    }
  }
}
