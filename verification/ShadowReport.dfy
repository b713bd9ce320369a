/**
 The pairwise comparison of the shadow lint, with its budgets, and what the report
 contains.
 */
module ShadowReport {
  import opened Text
  import opened Actions

  /** Rule `later` can never win `families`, because rule `earlier` always claims them first. */
  datatype Finding = Finding(later: nat, earlier: nat, families: seq<Family>)

  const MAX_COMPARISONS := 1_000_000
  const MAX_COMPARISON_BYTES := 256 * 1024 * 1024
  const MAX_FINDINGS := 10_000
  const MAX_REPORT_BYTES := 4 * 1024 * 1024

  /** Bytes charged for comparing two rules and for retaining a finding. */
  datatype Costs = Costs(compare: (nat, nat) -> nat, retain: Finding -> nat)

  function Intersect(families: seq<Family>, remaining: seq<Family>): (r: seq<Family>)
    ensures forall f :: f in r <==> f in families && f in remaining
  {
    if families == [] then []
    else (if families[0] in remaining then [families[0]] else []) + Intersect(families[1..], remaining)
  }

  function Minus(remaining: seq<Family>, shared: seq<Family>): (r: seq<Family>)
    ensures forall f :: f in r <==> f in remaining && f !in shared
  {
    if |remaining| == 0 then []
    else (if remaining[0] in shared then [] else [remaining[0]]) + Minus(remaining[1..], shared)
  }

  /**
   What the pairwise comparison reads: the enabled rules in resolution order, the
   single families of each, and whether one has no conditions and covers another.
   */
  datatype Subject = Subject(ordered: seq<nat>, families: seq<seq<Family>>, covers: (nat, nat) -> bool)
  {
    predicate Valid() {
      |ordered| == |families|
    }

    /** Findings about the rule at `pos` from the rules at `e` onwards. */
    function FindingsFor(pos: nat, e: nat, remaining: seq<Family>): seq<Finding>
      requires Valid() && e <= pos < |ordered|
      decreases pos - e
    {
      if e == pos || |remaining| == 0 then []
      else
        var shared := Intersect(families[e], remaining);
        if |shared| == 0 || !covers(e, pos) then FindingsFor(pos, e + 1, remaining)
        else [Finding(ordered[pos], ordered[e], shared)] + FindingsFor(pos, e + 1, Minus(remaining, shared))
    }

    /** Findings about the rules at `pos` onwards. */
    function FindingsFrom(pos: nat): seq<Finding>
      requires Valid() && pos <= |ordered|
      decreases |ordered| - pos
    {
      if pos == |ordered| then []
      else FindingsFor(pos, 0, families[pos]) + FindingsFrom(pos + 1)
    }
  }

  /** The report so far and what it has cost. */
  datatype Report = Report(findings: seq<Finding>, complete: bool,
    comparisons: nat, comparisonBytes: nat, reportBytes: nat)
  {
    predicate WithinBudget() {
      && comparisons <= MAX_COMPARISONS && comparisonBytes <= MAX_COMPARISON_BYTES
      && |findings| <= MAX_FINDINGS && reportBytes <= MAX_REPORT_BYTES
    }
  }

  /** The next comparison for the rule at `pos` is over a budget. */
  predicate CannotCompare(s: Subject, costs: Costs, pos: nat, r: Report)
    requires s.Valid() && pos < |s.ordered|
  {
    || r.comparisons == MAX_COMPARISONS
    || exists e :: 0 <= e < pos
         && r.comparisonBytes + costs.compare(s.ordered[pos], s.ordered[e]) > MAX_COMPARISON_BYTES
  }

  /** The next of all findings is over a budget. */
  predicate CannotRetain(costs: Costs, all: seq<Finding>, r: Report) {
    && |r.findings| < |all|
    && (|r.findings| == MAX_FINDINGS || r.reportBytes + costs.retain(all[|r.findings|]) > MAX_REPORT_BYTES)
  }

  lemma RetainsNothingMore(costs: Costs, all: seq<Finding>, more: seq<Finding>, r: Report)
    requires CannotRetain(costs, all, r)
    ensures CannotRetain(costs, all + more, r)
  {
  }

  /** Of all findings, those of the rule at `pos` from the rules at `e` onwards are still to come. */
  predicate ToCome(s: Subject, pos: nat, e: nat, remaining: seq<Family>, findings: seq<Finding>, all: seq<Finding>)
    requires s.Valid() && e <= pos < |s.ordered|
  {
    all == findings + s.FindingsFor(pos, e, remaining)
  }

  lemma NextToCome(s: Subject, pos: nat, e: nat, remaining: seq<Family>, findings: seq<Finding>, all: seq<Finding>)
    requires s.Valid() && e < pos < |s.ordered| && |remaining| > 0 && ToCome(s, pos, e, remaining, findings, all)
    ensures
      var shared := Intersect(s.families[e], remaining);
      if |shared| == 0 || !s.covers(e, pos) then ToCome(s, pos, e + 1, remaining, findings, all)
      else
        var finding := Finding(s.ordered[pos], s.ordered[e], shared);
        && findings + [finding] <= all && all[|findings|] == finding
        && ToCome(s, pos, e + 1, Minus(remaining, shared), findings + [finding], all)
  {
    var shared := Intersect(s.families[e], remaining);
    if |shared| > 0 && s.covers(e, pos) {
      Regroup(findings, [Finding(s.ordered[pos], s.ordered[e], shared)],
              s.FindingsFor(pos, e + 1, Minus(remaining, shared)));
    }
  }

  /** Compares one rule with the earlier ones until its families are exhausted or a budget is. */
  method LintRule(s: Subject, costs: Costs, pos: nat, so: Report) returns (r: Report)
    requires s.Valid() && pos < |s.ordered| && so.WithinBudget()
    ensures r.WithinBudget()
    ensures r.findings <= so.findings + s.FindingsFor(pos, 0, s.families[pos])
    ensures r.complete ==> so.complete && r.findings == so.findings + s.FindingsFor(pos, 0, s.families[pos])
    ensures so.complete && !r.complete ==>
      CannotCompare(s, costs, pos, r) || CannotRetain(costs, so.findings + s.FindingsFor(pos, 0, s.families[pos]), r)
  {
    r := so;
    var remaining := s.families[pos];
    var e := 0;
    ghost var all := so.findings + s.FindingsFor(pos, 0, remaining);
    while e < pos && |remaining| > 0
      invariant e <= pos && r.WithinBudget() && r.complete == so.complete
      invariant ToCome(s, pos, e, remaining, r.findings, all)
    {
      var size := costs.compare(s.ordered[pos], s.ordered[e]);
      if r.comparisons == MAX_COMPARISONS || r.comparisonBytes + size > MAX_COMPARISON_BYTES {
        return r.(complete := false);
      }
      r := r.(comparisons := r.comparisons + 1, comparisonBytes := r.comparisonBytes + size);
      var shared := Intersect(s.families[e], remaining);
      NextToCome(s, pos, e, remaining, r.findings, all);
      if |shared| > 0 && s.covers(e, pos) {
        remaining := Minus(remaining, shared);
        var finding := Finding(s.ordered[pos], s.ordered[e], shared);
        var cost := costs.retain(finding);
        if |r.findings| == MAX_FINDINGS || r.reportBytes + cost > MAX_REPORT_BYTES {
          return r.(complete := false);
        }
        r := r.(findings := r.findings + [finding], reportBytes := r.reportBytes + cost);
      }
      e := e + 1;
    }
  }

  /** Runs shadow lint over every rule, stopping at the first exhausted budget. */
  method LintReport(s: Subject, costs: Costs) returns (r: Report)
    requires s.Valid()
    ensures r.WithinBudget()
    ensures r.findings <= s.FindingsFrom(0)
    ensures r.complete ==> r.findings == s.FindingsFrom(0)
    ensures !r.complete ==>
      || (exists pos :: 0 <= pos < |s.ordered| && CannotCompare(s, costs, pos, r))
      || CannotRetain(costs, s.FindingsFrom(0), r)
  {
    r := Report([], true, 0, 0, 0);
    for pos := 0 to |s.ordered|
      invariant r.WithinBudget() && r.complete
      invariant s.FindingsFrom(0) == r.findings + s.FindingsFrom(pos)
    {
      ghost var before := r.findings;
      r := LintRule(s, costs, pos, r);
      Regroup(before, s.FindingsFor(pos, 0, s.families[pos]), s.FindingsFrom(pos + 1));
      if !r.complete {
        if !CannotCompare(s, costs, pos, r) {
          RetainsNothingMore(costs, before + s.FindingsFor(pos, 0, s.families[pos]), s.FindingsFrom(pos + 1), r);
        }
        return;
      }
    }
  }

  // ---------------------------------------------------------------------------
  // What a finding says about the rules

  lemma {:induction false} FindingIsShadow(s: Subject, pos: nat, e: nat, remaining: seq<Family>,
                                           f: Finding) returns (at: nat)
    requires s.Valid() && e <= pos < |s.ordered| && f in s.FindingsFor(pos, e, remaining)
    ensures e <= at < pos && s.covers(at, pos) && f.later == s.ordered[pos] && f.earlier == s.ordered[at]
    ensures f.families != [] && forall family :: family in f.families ==>
      family in s.families[at] && family in remaining
    decreases pos - e
  {
    var shared := Intersect(s.families[e], remaining);
    if |shared| == 0 || !s.covers(e, pos) {
      at := FindingIsShadow(s, pos, e + 1, remaining, f);
    } else if f == Finding(s.ordered[pos], s.ordered[e], shared) {
      at := e;
    } else {
      at := FindingIsShadow(s, pos, e + 1, Minus(remaining, shared), f);
    }
  }

  lemma {:induction false} FindingHasPosition(s: Subject, from: nat, f: Finding) returns (pos: nat)
    requires s.Valid() && from <= |s.ordered| && f in s.FindingsFrom(from)
    ensures from <= pos < |s.ordered| && f in s.FindingsFor(pos, 0, s.families[pos])
    decreases |s.ordered| - from
  {
    if f in s.FindingsFor(from, 0, s.families[from]) {
      pos := from;
    } else {
      pos := FindingHasPosition(s, from + 1, f);
    }
  }

  predicate Reported(findings: seq<Finding>, family: Family) {
    findings != [] && (family in findings[0].families || Reported(findings[1..], family))
  }

  /** A rule from `e` on covers the one at `pos` and has the family. */
  predicate Claimed(s: Subject, pos: nat, e: nat, family: Family)
    requires s.Valid() && pos < |s.ordered|
    decreases pos - e
  {
    e < pos && ((s.covers(e, pos) && family in s.families[e]) || Claimed(s, pos, e + 1, family))
  }

  lemma ReportedCons(finding: Finding, rest: seq<Finding>, family: Family)
    ensures Reported([finding] + rest, family) <==> family in finding.families || Reported(rest, family)
  {
    assert ([finding] + rest)[1..] == rest;
  }

  /** What one earlier rule adds to the report about a family. */
  lemma ReportedStep(s: Subject, pos: nat, e: nat, remaining: seq<Family>, family: Family)
    requires s.Valid() && e < pos < |s.ordered| && |remaining| > 0
    ensures
      var shared := Intersect(s.families[e], remaining);
      Reported(s.FindingsFor(pos, e, remaining), family) ==
        if |shared| == 0 || !s.covers(e, pos) then Reported(s.FindingsFor(pos, e + 1, remaining), family)
        else family in shared || Reported(s.FindingsFor(pos, e + 1, Minus(remaining, shared)), family)
  {
    var shared := Intersect(s.families[e], remaining);
    if |shared| > 0 && s.covers(e, pos) {
      ReportedCons(Finding(s.ordered[pos], s.ordered[e], shared),
                   s.FindingsFor(pos, e + 1, Minus(remaining, shared)), family);
    }
  }

  /** The family is reported exactly when it is asked for and claimed. */
  predicate Exact(s: Subject, pos: nat, e: nat, remaining: seq<Family>, family: Family)
    requires s.Valid() && e <= pos < |s.ordered|
  {
    Reported(s.FindingsFor(pos, e, remaining), family) == (family in remaining && Claimed(s, pos, e, family))
  }

  lemma SkippingIsExact(s: Subject, pos: nat, e: nat, remaining: seq<Family>, family: Family)
    requires s.Valid() && e < pos < |s.ordered| && |remaining| > 0 && Exact(s, pos, e + 1, remaining, family)
    requires |Intersect(s.families[e], remaining)| == 0 || !s.covers(e, pos)
    ensures Exact(s, pos, e, remaining, family)
  {
    NothingShared(s.families[e], remaining, s.covers(e, pos), family);
  }

  lemma TakingIsExact(s: Subject, pos: nat, e: nat, remaining: seq<Family>, family: Family)
    requires s.Valid() && e < pos < |s.ordered| && |remaining| > 0
    requires Exact(s, pos, e + 1, Minus(remaining, Intersect(s.families[e], remaining)), family)
    requires |Intersect(s.families[e], remaining)| > 0 && s.covers(e, pos)
    ensures Exact(s, pos, e, remaining, family)
  {
    ReportedStep(s, pos, e, remaining, family);
    SharedIsReported(s.families[e], remaining, family, Claimed(s, pos, e + 1, family));
  }

  /** A family is reported exactly when some earlier covering rule claims it. */
  lemma {:induction false} ReportIsExact(s: Subject, pos: nat, e: nat, remaining: seq<Family>, family: Family)
    requires s.Valid() && e <= pos < |s.ordered|
    ensures Exact(s, pos, e, remaining, family)
    decreases pos - e
  {
    if e < pos && |remaining| > 0 {
      var shared := Intersect(s.families[e], remaining);
      if |shared| == 0 || !s.covers(e, pos) {
        ReportIsExact(s, pos, e + 1, remaining, family);
        SkippingIsExact(s, pos, e, remaining, family);
      } else {
        ReportIsExact(s, pos, e + 1, Minus(remaining, shared), family);
        TakingIsExact(s, pos, e, remaining, family);
      }
    }
  }

  lemma NothingShared(families: seq<Family>, remaining: seq<Family>, covers: bool, family: Family)
    requires |Intersect(families, remaining)| == 0 || !covers
    ensures !(family in remaining && covers && family in families)
  {
    if family in remaining && family in families {
      assert family in Intersect(families, remaining);
    }
  }

  lemma SharedIsReported(families: seq<Family>, remaining: seq<Family>, family: Family, next: bool)
    ensures
      var shared := Intersect(families, remaining);
      (family in shared || (family in Minus(remaining, shared) && next))
      == (family in remaining && (family in families || next))
  {
  }

  lemma {:induction false} ClaimedMeans(s: Subject, pos: nat, e: nat, family: Family)
    requires s.Valid() && e <= pos < |s.ordered|
    ensures Claimed(s, pos, e, family) <==>
      exists at :: e <= at < pos && s.covers(at, pos) && family in s.families[at]
    decreases pos - e
  {
    if e < pos {
      ClaimedMeans(s, pos, e + 1, family);
    }
  }
}
