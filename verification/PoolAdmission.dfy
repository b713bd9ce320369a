/**
 Keyed pool admission: under every interleaving of acquiring, waiting, timing out and
 releasing, the counts are the slots that are out.
 */
module PoolAdmission {

  type Counts = map<string, nat>

  function ActiveFor(counts: Counts, key: string): nat {
    if key in counts then counts[key] else 0
  }

  /** One more reservation for `key` and no other change. */
  ghost predicate Reserves(before: Counts, after: Counts, key: string) {
    NoZeros(after) && forall k :: ActiveFor(after, k) == ActiveFor(before, k) + (if k == key then 1 else 0)
  }

  /** One reservation fewer for `key`, if there is one, and no other change. */
  ghost predicate Releases(before: Counts, after: Counts, key: string) {
    && NoZeros(after)
    && forall k :: ActiveFor(after, k) ==
         if k == key && ActiveFor(before, k) > 0 then ActiveFor(before, k) - 1 else ActiveFor(before, k)
  }

  predicate NoZeros(counts: Counts) {
    forall k :: k in counts ==> counts[k] > 0
  }

  /** Active-operation counts by pool key. */
  class KeyedActivity {
    var perKey: Counts

    constructor ()
      ensures perKey == map[]
    {
      perKey := map[];
    }

    method Reserve(key: string)
      requires NoZeros(perKey)
      modifies this
      ensures Reserves(old(perKey), perKey, key)
    {
      perKey := perKey[key := ActiveFor(perKey, key) + 1];
    }

    method Release(key: string)
      requires NoZeros(perKey)
      modifies this
      ensures Releases(old(perKey), perKey, key)
    {
      if key !in perKey {
        return;
      }
      var active := if perKey[key] > 0 then perKey[key] - 1 else 0;
      perKey := perKey[key := active];
      if active == 0 {
        perKey := perKey - {key};
      }
    }
  }

  // ---------------------------------------------------------------------------
  // One acquisition

  /** What a caller finds when it has the lock: the counts, and how its wait and its budget stand. */
  datatype Section = Section(counts: Counts, timedOut: bool, late: bool)

  datatype Outcome = Admitted | Denied | StillWaiting

  predicate HasRoom(counts: Counts, key: string, limit: nat) {
    ActiveFor(counts, key) < limit
  }

  /** Neither room nor a reason to give up. */
  predicate WaitsOn(s: Section, key: string, limit: nat) {
    !HasRoom(s.counts, key, limit) && !s.timedOut && !s.late
  }

  /** The first section in which the caller does not wait on, if it comes. */
  function Decisive(sections: seq<Section>, key: string, limit: nat): (n: nat)
    ensures n <= |sections| && forall i :: 0 <= i < n ==> WaitsOn(sections[i], key, limit)
    ensures n < |sections| ==> !WaitsOn(sections[n], key, limit)
  {
    if sections == [] || !WaitsOn(sections[0], key, limit) then 0 else 1 + Decisive(sections[1..], key, limit)
  }

  lemma {:induction false} DecisiveIs(sections: seq<Section>, key: string, limit: nat, n: nat)
    requires n <= |sections| && forall i :: 0 <= i < n ==> WaitsOn(sections[i], key, limit)
    requires n < |sections| ==> !WaitsOn(sections[n], key, limit)
    ensures Decisive(sections, key, limit) == n
    decreases n
  {
    if n > 0 {
      DecisiveIs(sections[1..], key, limit, n - 1);
    }
  }

  /** How an acquisition that meets these sections stands after the last of them. */
  function Verdict(sections: seq<Section>, key: string, limit: nat, zeroTimeout: bool): Outcome {
    var n := Decisive(sections, key, limit);
    if limit == 0 || zeroTimeout then Denied
    else if n == |sections| then StillWaiting
    else if HasRoom(sections[n].counts, key, limit) then Admitted
    else Denied
  }

  /**
   The acquisition loop. `sections` lists what the caller finds each time it gets the
   lock; between two of them other callers may have changed the counts.
   */
  method AcquireSlot(activity: KeyedActivity, key: string, limit: nat, zeroTimeout: bool, sections: seq<Section>)
    returns (outcome: Outcome)
    requires sections != [] && activity.perKey == sections[0].counts && !sections[0].timedOut
    requires forall i :: 0 <= i < |sections| ==> NoZeros(sections[i].counts)
    modifies activity
    ensures outcome == Verdict(sections, key, limit, zeroTimeout)
    ensures limit == 0 || zeroTimeout ==> activity.perKey == old(activity.perKey)
    ensures limit > 0 && !zeroTimeout ==>
      var n := Decisive(sections, key, limit);
      if outcome == StillWaiting then activity.perKey == sections[|sections| - 1].counts
      else if outcome == Admitted then Reserves(sections[n].counts, activity.perKey, key)
      else activity.perKey == sections[n].counts
  {
    if limit == 0 || zeroTimeout {
      return Denied;
    }
    var i := 0;
    while true
      invariant i < |sections| && activity.perKey == sections[i].counts
      invariant forall k :: 0 <= k < i ==> WaitsOn(sections[k], key, limit)
      invariant sections[i].timedOut ==> HasRoom(sections[i].counts, key, limit)
      decreases |sections| - i
    {
      if ActiveFor(activity.perKey, key) < limit {
        DecisiveIs(sections, key, limit, i);
        activity.Reserve(key);
        return Admitted;
      }
      if sections[i].late {
        DecisiveIs(sections, key, limit, i);
        return Denied;
      }
      if i + 1 == |sections| {
        DecisiveIs(sections, key, limit, i + 1);
        return StillWaiting;
      }
      i := i + 1;
      activity.perKey := sections[i].counts;
      if sections[i].timedOut && ActiveFor(activity.perKey, key) >= limit {
        DecisiveIs(sections, key, limit, i);
        return Denied;
      }
    }
  }

  // ---------------------------------------------------------------------------
  // Interleavings

  datatype Caller = Idle | Waiting(key: string) | Holding(key: string) | Refused

  type Callers = map<nat, Caller>

  /** The counts behind the lock, and where every caller stands. */
  datatype State = State(counts: Counts, callers: Callers)

  function At(callers: Callers, c: nat): Caller {
    if c in callers then callers[c] else Idle
  }

  /**
   A critical section of one caller. Between two events of one caller any events of
   others may come. `late` says that the wait budget is used up, and `timedOut` that
   the wait ended by its own deadline.
   */
  datatype Event =
    | Acquire(c: nat, key: string, zeroTimeout: bool, late: bool)
    | Wake(c: nat, timedOut: bool, late: bool)
    | Release(c: nat)

  /** The part of the acquisition loop that runs under the lock up to the next wait. */
  ghost predicate Attempts(s: State, s': State, c: nat, key: string, limit: nat, late: bool) {
    if ActiveFor(s.counts, key) < limit then
      Reserves(s.counts, s'.counts, key) && s'.callers == s.callers[c := Holding(key)]
    else
      s' == s.(callers := s.callers[c := if late then Refused else Waiting(key)])
  }

  ghost predicate Step(s: State, e: Event, s': State, limit: nat) {
    match e
    case Acquire(c, key, zeroTimeout, late) =>
      && !At(s.callers, c).Waiting? && !At(s.callers, c).Holding?
      && if limit == 0 || zeroTimeout then s' == s.(callers := s.callers[c := Refused])
         else Attempts(s, s', c, key, limit, late)
    case Wake(c, timedOut, late) =>
      && At(s.callers, c).Waiting?
      && var key := At(s.callers, c).key;
         if timedOut && ActiveFor(s.counts, key) >= limit then s' == s.(callers := s.callers[c := Refused])
         else Attempts(s, s', c, key, limit, late)
    case Release(c) =>
      && At(s.callers, c).Holding?
      && Releases(s.counts, s'.counts, At(s.callers, c).key) && s'.callers == s.callers[c := Idle]
  }

  ghost predicate StepAt(states: seq<State>, events: seq<Event>, limit: nat, i: nat)
    requires i < |events| < |states|
  {
    Step(states[i], events[i], states[i + 1], limit)
  }

  /** Every state of a run follows from the one before it. */
  ghost predicate Run(states: seq<State>, events: seq<Event>, limit: nat) {
    && |states| == |events| + 1 && states[0] == State(map[], map[])
    && forall i :: 0 <= i < |events| ==> StepAt(states, events, limit, i)
  }

  /** The callers that hold a slot for `key`. */
  function Leases(callers: Callers, key: string): set<nat> {
    set c | c in callers && callers[c] == Holding(key)
  }

  /** Counts are the slots that are out, none is zero, and none exceeds the limit. */
  ghost predicate Safe(s: State, limit: nat) {
    && NoZeros(s.counts)
    && forall key :: ActiveFor(s.counts, key) == |Leases(s.callers, key)| && ActiveFor(s.counts, key) <= limit
  }

  lemma LeasesOf(callers: Callers, c: nat, to: Caller, key: string)
    ensures
      var before, after := Leases(callers, key), Leases(callers[c := to], key);
      |after| == |before| - (if At(callers, c) == Holding(key) then 1 else 0) + (if to == Holding(key) then 1 else 0)
  {
    var before, after := Leases(callers, key), Leases(callers[c := to], key);
    var others := before - {c};
    assert before == if At(callers, c) == Holding(key) then others + {c} else others;
    assert after == if to == Holding(key) then others + {c} else others;
  }

  lemma StepIsSafe(s: State, e: Event, s': State, limit: nat)
    requires Safe(s, limit) && Step(s, e, s', limit)
    ensures Safe(s', limit)
  {
    forall key
      ensures ActiveFor(s'.counts, key) == |Leases(s'.callers, key)| && ActiveFor(s'.counts, key) <= limit
    {
      LeasesOf(s.callers, e.c, At(s'.callers, e.c), key);
    }
  }

  /** In every state of every run the counts are safe. */
  lemma {:induction false} RunIsSafe(states: seq<State>, events: seq<Event>, limit: nat, i: nat)
    requires Run(states, events, limit) && i < |states|
    ensures Safe(states[i], limit)
    decreases i
  {
    if i == 0 {
      assert forall key :: Leases(map[], key) == {};
    } else {
      RunIsSafe(states, events, limit, i - 1);
      assert StepAt(states, events, limit, i - 1);
      StepIsSafe(states[i - 1], events[i - 1], states[i], limit);
    }
  }

  // ---------------------------------------------------------------------------
  // The loop inside an interleaving

  /** What caller `c` finds in its critical sections among the events from `i` up to `j`. */
  function SectionsOf(states: seq<State>, events: seq<Event>, c: nat, i: nat, j: nat): seq<Section>
    requires i <= j <= |events| <= |states|
    decreases j - i
  {
    if i == j then []
    else
      SectionsOf(states, events, c, i, j - 1)
      + if events[j - 1].c == c then [SectionAt(states[j - 1], events[j - 1])] else []
  }

  function SectionAt(s: State, e: Event): Section {
    Section(s.counts, e.Wake? && e.timedOut, !e.Release? && e.late)
  }

  /** Event `i` begins an acquisition that caller `c` has not left before event `j`. */
  predicate Acquiring(events: seq<Event>, c: nat, key: string, i: nat, j: nat) {
    && i < j <= |events| && events[i].Acquire? && events[i].c == c && events[i].key == key
    && forall k :: i < k < j && events[k].c == c ==> events[k].Wake?
  }

  /** Where a caller stands for whom the loop has come to an outcome. */
  function Standing(outcome: Outcome, key: string): Caller {
    match outcome
    case Admitted => Holding(key)
    case Denied => Refused
    case StillWaiting => Waiting(key)
  }

  lemma DecisiveGrows(sections: seq<Section>, s: Section, key: string, limit: nat)
    requires Decisive(sections, key, limit) == |sections|
    ensures Decisive(sections + [s], key, limit) == |sections| + if WaitsOn(s, key, limit) then 1 else 0
  {
    DecisiveIs(sections + [s], key, limit, |sections| + if WaitsOn(s, key, limit) then 1 else 0);
  }

  lemma OthersStay(s: State, e: Event, s': State, limit: nat, c: nat)
    requires Step(s, e, s', limit) && e.c != c
    ensures At(s'.callers, c) == At(s.callers, c)
  {
  }

  /** The standing is what the loop makes of the sections, none of which comes after the decisive one. */
  predicate Follows(sections: seq<Section>, key: string, limit: nat, zeroTimeout: bool, standing: Caller) {
    && sections != [] && standing == Standing(Verdict(sections, key, limit, zeroTimeout), key)
    && Decisive(sections, key, limit) >= |sections| - 1
    && (limit == 0 || zeroTimeout ==> |sections| == 1)
  }

  lemma FirstSection(s: State, e: Event, s': State, limit: nat)
    requires Step(s, e, s', limit) && e.Acquire?
    ensures Follows([SectionAt(s, e)], e.key, limit, e.zeroTimeout, At(s'.callers, e.c))
  {
    var section := SectionAt(s, e);
    DecisiveGrows([], section, e.key, limit);
    assert [] + [section] == [section];
  }

  lemma NextSection(sections: seq<Section>, key: string, zeroTimeout: bool, s: State, e: Event, s': State, limit: nat)
    requires Follows(sections, key, limit, zeroTimeout, At(s.callers, e.c)) && Step(s, e, s', limit) && e.Wake?
    ensures Follows(sections + [SectionAt(s, e)], key, limit, zeroTimeout, At(s'.callers, e.c))
  {
    DecisiveGrows(sections, SectionAt(s, e), key, limit);
  }

  /**
   In every interleaving, a caller stands exactly where the acquisition loop would leave
   it over the sections that the caller met, and it meets none after the decisive one.
   */
  lemma {:induction false} LoopDecidesStanding(states: seq<State>, events: seq<Event>, limit: nat, c: nat,
                                               key: string, i: nat, j: nat)
    requires Run(states, events, limit) && Acquiring(events, c, key, i, j)
    ensures Follows(SectionsOf(states, events, c, i, j), key, limit, events[i].zeroTimeout, At(states[j].callers, c))
    decreases j
  {
    var e := events[j - 1];
    assert StepAt(states, events, limit, j - 1);
    var before := SectionsOf(states, events, c, i, j - 1);
    if j == i + 1 {
      FirstSection(states[i], e, states[j], limit);
      assert before + [SectionAt(states[i], e)] == [SectionAt(states[i], e)];
    } else {
      LoopDecidesStanding(states, events, limit, c, key, i, j - 1);
      if e.c == c {
        NextSection(before, key, events[i].zeroTimeout, states[j - 1], e, states[j], limit);
      } else {
        OthersStay(states[j - 1], e, states[j], limit, c);
        assert before + [] == before;
      }
    }
  }

  /** Event `k` is a critical section of the acquisition. */
  predicate Meets(events: seq<Event>, c: nat, i: nat, j: nat, k: nat) {
    i <= k < j <= |events| && events[k].c == c
  }

  /** The section at event `k` is listed, and last only if no later one is. */
  lemma {:induction false} SectionIsListed(states: seq<State>, events: seq<Event>, c: nat, i: nat, j: nat, k: nat)
    returns (at: nat)
    requires j <= |events| <= |states| && Meets(events, c, i, j, k)
    ensures at < |SectionsOf(states, events, c, i, j)|
    ensures SectionsOf(states, events, c, i, j)[at] == SectionAt(states[k], events[k])
    ensures forall m: nat :: k < m && Meets(events, c, i, j, m) ==> at < |SectionsOf(states, events, c, i, j)| - 1
    decreases j
  {
    if k == j - 1 {
      at := |SectionsOf(states, events, c, i, j)| - 1;
    } else {
      at := SectionIsListed(states, events, c, i, j - 1, k);
      forall m: nat | k < m && Meets(events, c, i, j, m)
        ensures at < |SectionsOf(states, events, c, i, j)| - 1
      {
        if m < j - 1 {
          assert Meets(events, c, i, j - 1, m);
        }
      }
    }
  }

  lemma {:induction false} ListedIsSection(states: seq<State>, events: seq<Event>, c: nat, i: nat, j: nat, at: nat)
    returns (k: nat)
    requires i <= j <= |events| <= |states| && at < |SectionsOf(states, events, c, i, j)|
    ensures Meets(events, c, i, j, k) && SectionsOf(states, events, c, i, j)[at] == SectionAt(states[k], events[k])
    decreases j
  {
    if at < |SectionsOf(states, events, c, i, j - 1)| {
      k := ListedIsSection(states, events, c, i, j - 1, at);
    } else {
      k := j - 1;
    }
  }

  /** Counts change in a section only if it finds room. */
  lemma SectionEffect(states: seq<State>, events: seq<Event>, limit: nat, c: nat, key: string, i: nat, j: nat, k: nat)
    requires Run(states, events, limit) && Acquiring(events, c, key, i, j) && Meets(events, c, i, j, k)
    requires limit > 0 && !events[i].zeroTimeout
    ensures if HasRoom(states[k].counts, key, limit) then Reserves(states[k].counts, states[k + 1].counts, key)
            else states[k + 1].counts == states[k].counts
    ensures HasRoom(states[k].counts, key, limit) <==> |Leases(states[k].callers, key)| < limit
  {
    RunIsSafe(states, events, limit, k);
    assert StepAt(states, events, limit, k);
    if k > i {
      LoopDecidesStanding(states, events, limit, c, key, i, k);
    }
  }

  /**
   A caller that ends up refused has changed no count in any of its sections. Unless it
   was refused outright, each of them found as many slots out as there are.
   */
  lemma RefusalReservesNothing(states: seq<State>, events: seq<Event>, limit: nat, c: nat, key: string,
                               i: nat, j: nat, k: nat)
    requires Run(states, events, limit) && Acquiring(events, c, key, i, j) && Meets(events, c, i, j, k)
    requires At(states[j].callers, c) == Refused
    ensures states[k + 1].counts == states[k].counts
    ensures limit > 0 && !events[i].zeroTimeout ==> |Leases(states[k].callers, key)| == limit
  {
    LoopDecidesStanding(states, events, limit, c, key, i, j);
    var at := SectionIsListed(states, events, c, i, j, k);
    if limit == 0 || events[i].zeroTimeout {
      assert StepAt(states, events, limit, k);
      if k > i {
        var first := SectionIsListed(states, events, c, i, j, i);
        assert false;
      }
    } else {
      SectionEffect(states, events, limit, c, key, i, j, k);
      RunIsSafe(states, events, limit, k);
    }
  }

  /**
   A section that finds a slot free admits the caller, even at its deadline; it is the
   last section, and the only one that changes a count.
   */
  lemma RoomMeansAdmission(states: seq<State>, events: seq<Event>, limit: nat, c: nat, key: string,
                           i: nat, j: nat, k: nat)
    requires Run(states, events, limit) && Acquiring(events, c, key, i, j) && Meets(events, c, i, j, k)
    requires limit > 0 && !events[i].zeroTimeout && |Leases(states[k].callers, key)| < limit
    ensures At(states[j].callers, c) == Holding(key) && Reserves(states[k].counts, states[k + 1].counts, key)
    ensures forall m: nat :: Meets(events, c, i, j, m) && m != k ==> m < k && states[m + 1].counts == states[m].counts
  {
    LoopDecidesStanding(states, events, limit, c, key, i, j);
    var at := SectionIsListed(states, events, c, i, j, k);
    SectionEffect(states, events, limit, c, key, i, j, k);
    forall m: nat | Meets(events, c, i, j, m) && m != k
      ensures m < k && states[m + 1].counts == states[m].counts
    {
      var earlier := SectionIsListed(states, events, c, i, j, m);
      SectionEffect(states, events, limit, c, key, i, j, m);
    }
  }

  /** A caller holds a slot exactly when one of its sections found a slot free. */
  lemma AdmittedExactlyWhenRoom(states: seq<State>, events: seq<Event>, limit: nat, c: nat, key: string,
                                i: nat, j: nat)
    requires Run(states, events, limit) && Acquiring(events, c, key, i, j) && limit > 0 && !events[i].zeroTimeout
    ensures At(states[j].callers, c) == Holding(key) <==>
      exists k: nat :: Meets(events, c, i, j, k) && |Leases(states[k].callers, key)| < limit
  {
    if At(states[j].callers, c) == Holding(key) {
      LoopDecidesStanding(states, events, limit, c, key, i, j);
      var sections := SectionsOf(states, events, c, i, j);
      var k := ListedIsSection(states, events, c, i, j, Decisive(sections, key, limit));
      SectionEffect(states, events, limit, c, key, i, j, k);
    }
    if k: nat :| Meets(events, c, i, j, k) && |Leases(states[k].callers, key)| < limit {
      RoomMeansAdmission(states, events, limit, c, key, i, j, k);
    }
  }

  /** Releasing the slot just acquired restores every count. */
  lemma ReleaseUndoesReserve(before: Counts, during: Counts, after: Counts, key: string)
    requires NoZeros(before) && Reserves(before, during, key) && Releases(during, after, key)
    ensures after == before
  {
    forall k
      ensures k in after <==> k in before
      ensures k in after ==> after[k] == before[k]
    {
      assert ActiveFor(after, k) == ActiveFor(before, k);
    }
    assert after.Keys == before.Keys;
  }
}
