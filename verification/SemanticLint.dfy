/**
 Conditions of one rule that can never hold together, and conditions that need a response.
 */
module SemanticLint {
  import opened Text
  import opened Model
  import opened Matching

  // ---------------------------------------------------------------------------
  // Constant conditions

  datatype Truth = True | False | Unknown

  function ConstantTruth(c: Condition): Truth
    decreases c, 0
  {
    match c
    case ChancePermille(p) => if p == 0 then False else if p == 1000 then True else Unknown
    case Any(cs) => AnyTruth(cs, false)
    case All(cs) => AllTruth(cs, false)
    case Not(inner) =>
      (match ConstantTruth(inner)
       case True => False
       case False => True
       case Unknown => Unknown)
    case _ => Unknown
  }

  /** Scans alternatives, remembering whether an undecided one was seen. */
  function AnyTruth(cs: seq<Condition>, unknown: bool): Truth
    decreases cs, 1
  {
    if cs == [] then if unknown then Unknown else False
    else
      match ConstantTruth(cs[0])
      case True => True
      case Unknown => AnyTruth(cs[1..], true)
      case False => AnyTruth(cs[1..], unknown)
  }

  function AllTruth(cs: seq<Condition>, unknown: bool): Truth
    decreases cs, 1
  {
    if cs == [] then if unknown then Unknown else True
    else
      match ConstantTruth(cs[0])
      case False => False
      case Unknown => AllTruth(cs[1..], true)
      case True => AllTruth(cs[1..], unknown)
  }

  /** What a constant verdict promises: a true condition may still wait for a response. */
  predicate Promises(truth: Truth, w: World, c: Condition, x: Context) {
    && (truth.False? ==> !Holds(w, c, x))
    && (truth.True? && (x.res.Some? || !DependsOnResponse(c)) ==> Holds(w, c, x))
  }

  lemma {:induction false} ConstantTruthIsSound(w: World, c: Condition, x: Context)
    ensures Promises(ConstantTruth(c), w, c, x)
    decreases c, 0
  {
    match c
    case Any(cs) => AnyTruthIsSound(w, cs, false, x);
    case All(cs) => AllTruthIsSound(w, cs, false, x);
    case Not(inner) => ConstantTruthIsSound(w, inner, x);
    case _ =>
  }

  lemma {:induction false} AnyTruthIsSound(w: World, cs: seq<Condition>, unknown: bool, x: Context)
    ensures AnyTruth(cs, unknown).False? ==> forall i :: 0 <= i < |cs| ==> !Holds(w, cs[i], x)
    ensures AnyTruth(cs, unknown).True? && (x.res.Some? || forall i :: 0 <= i < |cs| ==> !DependsOnResponse(cs[i]))
      ==> exists i :: 0 <= i < |cs| && Holds(w, cs[i], x)
    decreases cs, 1
  {
    if cs != [] {
      ConstantTruthIsSound(w, cs[0], x);
      AnyTruthIsSound(w, cs[1..], true, x);
      AnyTruthIsSound(w, cs[1..], unknown, x);
      assert forall i :: 0 < i < |cs| ==> cs[i] == cs[1..][i - 1];
      assert forall i :: 0 <= i < |cs[1..]| ==> cs[1..][i] == cs[i + 1];
      AnyTruthUnknown(cs[1..]);
    }
  }

  lemma {:induction false} AnyTruthUnknown(cs: seq<Condition>)
    ensures AnyTruth(cs, true) != False
    decreases |cs|
  {
    if cs != [] {
      AnyTruthUnknown(cs[1..]);
    }
  }

  lemma {:induction false} AllTruthIsSound(w: World, cs: seq<Condition>, unknown: bool, x: Context)
    ensures AllTruth(cs, unknown).False? ==> exists i :: 0 <= i < |cs| && !Holds(w, cs[i], x)
    ensures AllTruth(cs, unknown).True? && (x.res.Some? || forall i :: 0 <= i < |cs| ==> !DependsOnResponse(cs[i]))
      ==> forall i :: 0 <= i < |cs| ==> Holds(w, cs[i], x)
    decreases cs, 1
  {
    if cs != [] {
      ConstantTruthIsSound(w, cs[0], x);
      AllTruthIsSound(w, cs[1..], true, x);
      AllTruthIsSound(w, cs[1..], unknown, x);
      assert forall i :: 0 < i < |cs| ==> cs[i] == cs[1..][i - 1];
      assert forall i :: 0 <= i < |cs[1..]| ==> cs[1..][i] == cs[i + 1];
      AllTruthUnknown(cs[1..]);
    }
  }

  lemma {:induction false} AllTruthUnknown(cs: seq<Condition>)
    ensures AllTruth(cs, true) != True
    decreases |cs|
  {
    if cs != [] {
      AllTruthUnknown(cs[1..]);
    }
  }

  // ---------------------------------------------------------------------------
  // Conjunctions

  function Flatten(c: Condition): seq<Condition>
    decreases c, 0
  {
    if c.All? then FlattenAll(c.children) else [c]
  }

  function FlattenAll(cs: seq<Condition>): seq<Condition>
    decreases cs, 1
  {
    if cs == [] then [] else Flatten(cs[0]) + FlattenAll(cs[1..])
  }

  lemma {:induction false} FlattenHolds(w: World, c: Condition, x: Context)
    ensures Holds(w, c, x) <==> AllHold(w, Flatten(c), x)
    decreases c, 0
  {
    if c.All? {
      FlattenAllHolds(w, c.children, x);
    } else {
      assert Flatten(c)[0] == c;
    }
  }

  /** Flattening nested conjunctions changes nothing. */
  lemma {:induction false} FlattenAllHolds(w: World, cs: seq<Condition>, x: Context)
    ensures AllHold(w, cs, x) <==> AllHold(w, FlattenAll(cs), x)
    decreases cs, 1
  {
    if cs != [] {
      FlattenHolds(w, cs[0], x);
      FlattenAllHolds(w, cs[1..], x);
      AllHoldSplit(w, [cs[0]], cs[1..], x);
      assert [cs[0]] + cs[1..] == cs;
      assert [cs[0]][0] == cs[0];
      AllHoldSplit(w, Flatten(cs[0]), FlattenAll(cs[1..]), x);
    }
  }

  lemma AllHoldSplit(w: World, a: seq<Condition>, b: seq<Condition>, x: Context)
    ensures AllHold(w, a + b, x) <==> AllHold(w, a, x) && AllHold(w, b, x)
  {
    if AllHold(w, a + b, x) {
      assert forall i :: 0 <= i < |a| ==> (a + b)[i] == a[i];
      assert forall i :: 0 <= i < |b| ==> (a + b)[|a| + i] == b[i];
    }
  }

  // ---------------------------------------------------------------------------
  // Method and status constraints

  function Elements<T(==)>(list: seq<T>): set<T> {
    set v | v in list
  }

  /** The values every list has in common, if there is a list at all. */
  function Common<T(==)>(lists: seq<seq<T>>): Option<set<T>> {
    if lists == [] then None
    else
      var values := Elements(lists[|lists| - 1]);
      var before := Common(lists[..|lists| - 1]);
      Some(if before.None? then values else before.value * values)
  }

  function Union<T(==)>(lists: seq<seq<T>>): set<T> {
    if lists == [] then {} else Union(lists[..|lists| - 1]) + Elements(lists[|lists| - 1])
  }

  lemma {:induction false} CommonIs<T>(lists: seq<seq<T>>, v: T)
    requires lists != []
    ensures Common(lists).Some?
    ensures v in Common(lists).value <==> forall i :: 0 <= i < |lists| ==> v in lists[i]
    decreases |lists|
  {
    if |lists| > 1 {
      CommonIs(lists[..|lists| - 1], v);
    }
  }

  lemma {:induction false} UnionIs<T>(lists: seq<seq<T>>, v: T)
    ensures v in Union(lists) <==> exists i :: 0 <= i < |lists| && v in lists[i]
    decreases |lists|
  {
    if lists != [] {
      UnionIs(lists[..|lists| - 1], v);
    }
  }

  /** Some value lies on every positive list and on no forbidden one. */
  ghost predicate Possible<T>(positive: seq<seq<T>>, forbidden: seq<seq<T>>, v: T) {
    && (forall i :: 0 <= i < |positive| ==> v in positive[i])
    && forall i :: 0 <= i < |forbidden| ==> v !in forbidden[i]
  }

  predicate NoValueLeft<T(==)>(positive: seq<seq<T>>, forbidden: seq<seq<T>>) {
    Common(positive).Some? && Common(positive).value <= Union(forbidden)
  }

  /** With at least one positive list, the emptiness test is exact. */
  lemma NoValueLeftIsExact<T(!new)>(positive: seq<seq<T>>, forbidden: seq<seq<T>>)
    ensures NoValueLeft(positive, forbidden) <==> positive != [] && forall v :: !Possible(positive, forbidden, v)
  {
    if positive != [] {
      forall v
        ensures Possible(positive, forbidden, v) <==> v in Common(positive).value && v !in Union(forbidden)
      {
        CommonIs(positive, v);
        UnionIs(forbidden, v);
      }
      var first := positive[0];
      assert Common(positive).Some? by {
        if first != [] {
          CommonIs(positive, first[0]);
        }
      }
    }
  }

  /** The lists a conjunction gives for one kind of constraint. */
  function Lists<T>(conjunction: seq<Condition>, kind: Condition -> Option<seq<T>>): seq<seq<T>> {
    if conjunction == [] then []
    else
      var list := kind(conjunction[0]);
      (if list.Some? then [list.value] else []) + Lists(conjunction[1..], kind)
  }

  lemma {:induction false} ListsAre<T>(conjunction: seq<Condition>, kind: Condition -> Option<seq<T>>, list: seq<T>)
    ensures list in Lists(conjunction, kind) <==>
      exists i :: 0 <= i < |conjunction| && kind(conjunction[i]) == Some(list)
    decreases |conjunction|
  {
    if conjunction != [] {
      ListsAre(conjunction[1..], kind, list);
      assert forall i :: 0 < i < |conjunction| ==> conjunction[i] == conjunction[1..][i - 1];
      assert forall i :: 0 <= i < |conjunction[1..]| ==> conjunction[1..][i] == conjunction[i + 1];
    }
  }

  function PositiveMethods(c: Condition): Option<seq<string>> {
    if c.Method? then Some(c.methods) else None
  }

  function ForbiddenMethods(c: Condition): Option<seq<string>> {
    if c.Not? && c.inner.Method? then Some(c.inner.methods) else None
  }

  function PositiveStatuses(c: Condition): Option<seq<nat>> {
    if c.StatusIs? then Some(c.statuses) else None
  }

  function ForbiddenStatuses(c: Condition): Option<seq<nat>> {
    if c.Not? && c.inner.StatusIs? then Some(c.inner.statuses) else None
  }

  predicate MethodConstraintsAreEmpty(conjunction: seq<Condition>) {
    NoValueLeft(Lists(conjunction, PositiveMethods), Lists(conjunction, ForbiddenMethods))
  }

  predicate StatusConstraintsAreEmpty(conjunction: seq<Condition>) {
    NoValueLeft(Lists(conjunction, PositiveStatuses), Lists(conjunction, ForbiddenStatuses))
  }

  // The values a conjunction leaves for a request method and a response status.

  predicate Names(methods: seq<string>, m: string) {
    exists i :: 0 <= i < |methods| && EqIgnoreCase(methods[i], m)
  }

  predicate MethodAllowed(c: Condition, m: string) {
    && (c.Method? ==> Names(c.methods, m))
    && (c.Not? && c.inner.Method? ==> !Names(c.inner.methods, m))
  }

  predicate StatusAllowed(c: Condition, status: nat) {
    && (c.StatusIs? ==> status in c.statuses)
    && (c.Not? && c.inner.StatusIs? ==> status !in c.inner.statuses)
  }

  /** No condition of the conjunction rules the method out. */
  predicate LeavesMethod(conjunction: seq<Condition>, m: string) {
    forall i :: 0 <= i < |conjunction| ==> MethodAllowed(conjunction[i], m)
  }

  predicate LeavesStatus(conjunction: seq<Condition>, status: nat) {
    forall i :: 0 <= i < |conjunction| ==> StatusAllowed(conjunction[i], status)
  }

  predicate HasNoLowercase(s: string) {
    forall i :: 0 <= i < |s| ==> !('a' <= s[i] <= 'z')
  }

  /** Method names are stored in upper case, as the parser leaves them. */
  predicate MethodsAreUppercase(c: Condition) {
    && (c.Method? ==> forall i :: 0 <= i < |c.methods| ==> HasNoLowercase(c.methods[i]))
    && (c.Not? && c.inner.Method? ==> forall i :: 0 <= i < |c.inner.methods| ==> HasNoLowercase(c.inner.methods[i]))
  }

  lemma UppercaseIsFaithful(s: string, t: string)
    requires HasNoLowercase(s) && HasNoLowercase(t) && EqIgnoreCase(s, t)
    ensures s == t
  {
    assert |s| == |Lower(s)| == |Lower(t)| == |t|;
    forall i | 0 <= i < |s|
      ensures s[i] == t[i]
    {
      assert Lower(s)[i] == Lower(t)[i];
    }
  }

  lemma UppercaseNames(methods: seq<string>, m: string)
    requires forall i :: 0 <= i < |methods| ==> HasNoLowercase(methods[i])
    requires HasNoLowercase(m)
    ensures Names(methods, m) <==> m in methods
  {
    if Names(methods, m) {
      var i :| 0 <= i < |methods| && EqIgnoreCase(methods[i], m);
      UppercaseIsFaithful(methods[i], m);
    }
  }

  /** For an upper-case name, being possible is being allowed by every condition. */
  lemma PossibleMethodIsAllowed(conjunction: seq<Condition>, m: string)
    requires HasNoLowercase(m) && forall i :: 0 <= i < |conjunction| ==> MethodsAreUppercase(conjunction[i])
    ensures Possible(Lists(conjunction, PositiveMethods), Lists(conjunction, ForbiddenMethods), m)
      <==> LeavesMethod(conjunction, m)
  {
    var positive := Lists(conjunction, PositiveMethods);
    var forbidden := Lists(conjunction, ForbiddenMethods);
    if Possible(positive, forbidden, m) {
      forall i | 0 <= i < |conjunction|
        ensures MethodAllowed(conjunction[i], m)
      {
        var c := conjunction[i];
        if c.Method? {
          ListsAre(conjunction, PositiveMethods, c.methods);
          UppercaseNames(c.methods, m);
        } else if c.Not? && c.inner.Method? {
          ListsAre(conjunction, ForbiddenMethods, c.inner.methods);
          UppercaseNames(c.inner.methods, m);
        }
      }
    }
    if LeavesMethod(conjunction, m) {
      forall k | 0 <= k < |positive|
        ensures m in positive[k]
      {
        ListsAre(conjunction, PositiveMethods, positive[k]);
        UppercaseNames(positive[k], m);
      }
      forall k | 0 <= k < |forbidden|
        ensures m !in forbidden[k]
      {
        ListsAre(conjunction, ForbiddenMethods, forbidden[k]);
        UppercaseNames(forbidden[k], m);
      }
    }
  }

  /** Allowed methods come with an allowed upper-case name when some condition names methods. */
  lemma AllowedMethodHasName(conjunction: seq<Condition>, m: string) returns (name: string)
    requires forall i :: 0 <= i < |conjunction| ==> MethodsAreUppercase(conjunction[i])
    requires LeavesMethod(conjunction, m) && Lists(conjunction, PositiveMethods) != []
    ensures HasNoLowercase(name) && LeavesMethod(conjunction, name)
  {
    var list := Lists(conjunction, PositiveMethods)[0];
    ListsAre(conjunction, PositiveMethods, list);
    var i :| 0 <= i < |conjunction| && PositiveMethods(conjunction[i]) == Some(list);
    var k :| 0 <= k < |list| && EqIgnoreCase(list[k], m);
    name := list[k];
  }

  /** The method test fires exactly when methods are named and none is left. */
  lemma MethodTestIsExact(conjunction: seq<Condition>)
    requires forall i :: 0 <= i < |conjunction| ==> MethodsAreUppercase(conjunction[i])
    ensures MethodConstraintsAreEmpty(conjunction) <==>
      && Lists(conjunction, PositiveMethods) != []
      && forall m :: !LeavesMethod(conjunction, m)
  {
    var positive := Lists(conjunction, PositiveMethods);
    var forbidden := Lists(conjunction, ForbiddenMethods);
    NoValueLeftIsExact(positive, forbidden);
    if positive != [] {
      if v: string :| Possible(positive, forbidden, v) {
        ListsAre(conjunction, PositiveMethods, positive[0]);
        var i :| 0 <= i < |conjunction| && PositiveMethods(conjunction[i]) == Some(positive[0]);
        assert MethodsAreUppercase(conjunction[i]) && v in conjunction[i].methods;
        PossibleMethodIsAllowed(conjunction, v);
      } else {
        forall m
          ensures !LeavesMethod(conjunction, m)
        {
          if LeavesMethod(conjunction, m) {
            var name := AllowedMethodHasName(conjunction, m);
            PossibleMethodIsAllowed(conjunction, name);
          }
        }
      }
    }
  }

  lemma PossibleStatusIsAllowed(conjunction: seq<Condition>, status: nat)
    ensures Possible(Lists(conjunction, PositiveStatuses), Lists(conjunction, ForbiddenStatuses), status)
      <==> LeavesStatus(conjunction, status)
  {
    var positive := Lists(conjunction, PositiveStatuses);
    var forbidden := Lists(conjunction, ForbiddenStatuses);
    forall k | 0 <= k < |positive| {
      ListsAre(conjunction, PositiveStatuses, positive[k]);
    }
    forall k | 0 <= k < |forbidden| {
      ListsAre(conjunction, ForbiddenStatuses, forbidden[k]);
    }
    forall i | 0 <= i < |conjunction|
      ensures conjunction[i].StatusIs? ==> conjunction[i].statuses in positive
      ensures conjunction[i].Not? && conjunction[i].inner.StatusIs? ==> conjunction[i].inner.statuses in forbidden
    {
      if conjunction[i].StatusIs? {
        ListsAre(conjunction, PositiveStatuses, conjunction[i].statuses);
      } else if conjunction[i].Not? && conjunction[i].inner.StatusIs? {
        ListsAre(conjunction, ForbiddenStatuses, conjunction[i].inner.statuses);
      }
    }
  }

  /** The status test fires exactly when statuses are named and none is left. */
  lemma StatusTestIsExact(conjunction: seq<Condition>)
    ensures StatusConstraintsAreEmpty(conjunction) <==>
      && Lists(conjunction, PositiveStatuses) != []
      && forall status: nat :: !LeavesStatus(conjunction, status)
  {
    NoValueLeftIsExact(Lists(conjunction, PositiveStatuses), Lists(conjunction, ForbiddenStatuses));
    forall status: nat {
      PossibleStatusIsAllowed(conjunction, status);
    }
  }

  // ---------------------------------------------------------------------------
  // Environment constraints

  type Environment = string -> Option<string>

  predicate EnvAllowed(c: Condition, env: Environment) {
    match c
    case EnvPresent(name) => env(name).Some?
    case EnvEquals(name, value) => env(name) == Some(value)
    case Not(EnvPresent(name)) => env(name).None?
    case Not(EnvEquals(name, value)) => env(name) != Some(value)
    case _ => true
  }

  predicate LeavesEnvironment(conjunction: seq<Condition>, env: Environment) {
    forall i :: 0 <= i < |conjunction| ==> EnvAllowed(conjunction[i], env)
  }

  /** What has been gathered from the first conditions of a conjunction. */
  datatype Gathered = Gathered(
    required: map<string, string>,
    present: set<string>,
    absent: set<string>,
    forbidden: map<string, set<string>>)
  {
    predicate Forbids(name: string, value: string) {
      name in forbidden && value in forbidden[name]
    }

    /** Every environment constraint among the conditions has been recorded. */
    ghost predicate Records(c: Condition) {
      match c
      case EnvPresent(name) => name in present
      case EnvEquals(name, value) => name in present && name in required && required[name] == value
      case Not(EnvPresent(name)) => name in absent
      case Not(EnvEquals(name, value)) => Forbids(name, value)
      case _ => true
    }

    /** Nothing has been recorded that some environment meeting the conditions violates. */
    ghost predicate FollowsFrom(conjunction: seq<Condition>, env: Environment) {
      LeavesEnvironment(conjunction, env) ==>
      && (forall name :: name in required ==> env(name) == Some(required[name]))
      && (forall name :: name in present ==> env(name).Some?)
      && (forall name :: name in absent ==> env(name).None?)
      && (forall name, value :: Forbids(name, value) ==> env(name) != Some(value))
    }
  }

  /** Records one more condition that does not clash with an earlier required value. */
  function Gather(g: Gathered, c: Condition): Gathered {
    match c
    case EnvPresent(name) => g.(present := g.present + {name})
    case EnvEquals(name, value) => g.(present := g.present + {name}, required := g.required[name := value])
    case Not(EnvPresent(name)) => g.(absent := g.absent + {name})
    case Not(EnvEquals(name, value)) =>
      g.(forbidden := g.forbidden[name := (if name in g.forbidden then g.forbidden[name] else {}) + {value}])
    case _ => g
  }

  predicate Clashes(g: Gathered, c: Condition) {
    c.EnvEquals? && c.name in g.required && g.required[c.name] != c.value
  }

  lemma GatherRecords(g: Gathered, c: Condition, earlier: Condition)
    requires !Clashes(g, c)
    ensures Gather(g, c).Records(c)
    ensures g.Records(earlier) ==> Gather(g, c).Records(earlier)
  {
  }

  lemma GatherFollows(g: Gathered, conjunction: seq<Condition>, i: nat, env: Environment)
    requires i < |conjunction| && g.FollowsFrom(conjunction, env)
    ensures Gather(g, conjunction[i]).FollowsFrom(conjunction, env)
    ensures Clashes(g, conjunction[i]) ==> !LeavesEnvironment(conjunction, env)
  {
    if LeavesEnvironment(conjunction, env) {
      assert EnvAllowed(conjunction[i], env);
    }
  }

  /** Looks for two environment constraints that exclude each other. */
  method EnvironmentContradiction(conjunction: seq<Condition>) returns (found: bool)
    ensures found <==> forall env: Environment :: !LeavesEnvironment(conjunction, env)
  {
    var g := Gathered(map[], {}, {}, map[]);
    for i := 0 to |conjunction|
      invariant forall k :: 0 <= k < i ==> g.Records(conjunction[k])
      invariant g.required.Keys <= g.present
      invariant forall env: Environment :: g.FollowsFrom(conjunction, env)
    {
      var c := conjunction[i];
      forall env: Environment
        ensures Gather(g, c).FollowsFrom(conjunction, env)
        ensures Clashes(g, c) ==> !LeavesEnvironment(conjunction, env)
      {
        GatherFollows(g, conjunction, i, env);
      }
      if Clashes(g, c) {
        return true;
      }
      forall k | 0 <= k < i
        ensures Gather(g, c).Records(conjunction[k])
      {
        GatherRecords(g, c, conjunction[k]);
      }
      GatherRecords(g, c, c);
      g := Gather(g, c);
    }
    found := Conflicts(g);
    if found {
      forall env: Environment
        ensures !LeavesEnvironment(conjunction, env)
      {
        ConflictExcludes(g, conjunction, env);
      }
    } else {
      WitnessMeets(g, conjunction);
      assert LeavesEnvironment(conjunction, Witness(g));
    }
  }

  lemma ConflictExcludes(g: Gathered, conjunction: seq<Condition>, env: Environment)
    requires Conflicts(g) && g.FollowsFrom(conjunction, env)
    ensures !LeavesEnvironment(conjunction, env)
  {
    if g.present * g.absent != {} {
      var name :| name in g.present * g.absent;
    }
  }

  /** Something required is also excluded. */
  predicate Conflicts(g: Gathered) {
    || g.present * g.absent != {}
    || exists name :: name in g.required && g.Forbids(name, g.required[name])
  }

  lemma {:induction false} LengthBound(texts: set<string>) returns (n: nat)
    ensures forall s :: s in texts ==> |s| <= n
    decreases |texts|
  {
    if texts == {} {
      n := 0;
    } else {
      var s :| s in texts;
      n := LengthBound(texts - {s});
      n := if |s| > n then |s| else n;
    }
  }

  ghost function Fresh(texts: set<string>): (s: string)
    ensures s !in texts
  {
    FreshExists(texts);
    var s :| s !in texts;
    s
  }

  lemma FreshExists(texts: set<string>)
    ensures exists s: string :: s !in texts
  {
    var n := LengthBound(texts);
    var longer: string := seq(n + 1, i => 'x');
    assert longer !in texts;
  }

  /** An environment that meets what was gathered when nothing conflicts. */
  ghost function Witness(g: Gathered): Environment {
    (name: string) =>
      if name in g.required then Some(g.required[name])
      else if name in g.present then Some(Fresh(if name in g.forbidden then g.forbidden[name] else {}))
      else None
  }

  lemma WitnessMeets(g: Gathered, conjunction: seq<Condition>)
    requires !Conflicts(g) && g.required.Keys <= g.present
    requires forall k :: 0 <= k < |conjunction| ==> g.Records(conjunction[k])
    ensures LeavesEnvironment(conjunction, Witness(g))
  {
    forall k | 0 <= k < |conjunction|
      ensures EnvAllowed(conjunction[k], Witness(g))
    {
      assert g.Records(conjunction[k]);
      match conjunction[k]
      case Not(EnvPresent(name)) => assert name !in g.present * g.absent;
      case _ =>
    }
  }

  // ---------------------------------------------------------------------------
  // Unsatisfiable conditions

  datatype Conflict = ConstantCondition | MethodConflict | StatusConflict | EnvironmentConflict

  method UnsatisfiableConditions(conditions: seq<Condition>) returns (conflict: Option<Conflict>)
    requires forall i :: 0 <= i < |FlattenAll(conditions)| ==> MethodsAreUppercase(FlattenAll(conditions)[i])
    ensures conflict.Some? ==> forall w: World, x: Context :: !AllHold(w, conditions, x)
    ensures conflict.None? ==> forall i :: 0 <= i < |conditions| ==> ConstantTruth(conditions[i]) != False
    ensures var conjunction := FlattenAll(conditions);
      conflict.None? ==>
      && (Lists(conjunction, PositiveMethods) != [] ==> exists m :: LeavesMethod(conjunction, m))
      && (Lists(conjunction, PositiveStatuses) != [] ==> exists status: nat :: LeavesStatus(conjunction, status))
      && exists env: Environment :: LeavesEnvironment(conjunction, env)
  {
    for i := 0 to |conditions|
      invariant forall k :: 0 <= k < i ==> ConstantTruth(conditions[k]) != False
    {
      if ConstantTruth(conditions[i]) == False {
        forall w: World, x: Context
          ensures !AllHold(w, conditions, x)
        {
          ConstantTruthIsSound(w, conditions[i], x);
        }
        return Some(ConstantCondition);
      }
    }
    var conjunction := FlattenAll(conditions);
    MethodTestIsExact(conjunction);
    StatusTestIsExact(conjunction);
    forall w: World, x: Context | AllHold(w, conditions, x)
      ensures LeavesMethod(conjunction, x.req.method_) && LeavesEnvironment(conjunction, w.env)
      ensures Lists(conjunction, PositiveStatuses) != [] ==>
        x.res.Some? && LeavesStatus(conjunction, x.res.value.status)
    {
      FlattenAllHolds(w, conditions, x);
      HoldingLeaves(w, conjunction, x);
    }
    if MethodConstraintsAreEmpty(conjunction) {
      return Some(MethodConflict);
    }
    if StatusConstraintsAreEmpty(conjunction) {
      return Some(StatusConflict);
    }
    var contradiction := EnvironmentContradiction(conjunction);
    conflict := if contradiction then Some(EnvironmentConflict) else None;
  }

  /** When a conjunction holds, the request, response and environment are among those it leaves. */
  lemma HoldingLeaves(w: World, conjunction: seq<Condition>, x: Context)
    requires AllHold(w, conjunction, x)
    ensures LeavesMethod(conjunction, x.req.method_) && LeavesEnvironment(conjunction, w.env)
    ensures Lists(conjunction, PositiveStatuses) != [] ==> x.res.Some? && LeavesStatus(conjunction, x.res.value.status)
  {
    forall i | 0 <= i < |conjunction|
      ensures MethodAllowed(conjunction[i], x.req.method_) && EnvAllowed(conjunction[i], w.env)
      ensures x.res.Some? ==> StatusAllowed(conjunction[i], x.res.value.status)
    {
      assert Holds(w, conjunction[i], x);
      if conjunction[i].Not? {
        assert !Holds(w, conjunction[i].inner, x);
      }
    }
    var lists := Lists(conjunction, PositiveStatuses);
    if lists != [] {
      ListsAre(conjunction, PositiveStatuses, lists[0]);
      var i :| 0 <= i < |conjunction| && PositiveStatuses(conjunction[i]) == Some(lists[0]);
      assert Holds(w, conjunction[i], x);
    }
  }

  lemma MixedLists(conjunction: seq<Condition>)
    requires conjunction == [Method(["GET"]), Method(["get"])]
    ensures Lists(conjunction, PositiveMethods) == [["GET"], ["get"]] && Lists(conjunction, ForbiddenMethods) == []
  {
    var last, none: seq<Condition> := [Method(["get"])], [];
    assert conjunction[1..] == last && last[1..] == none;
    assert Lists(none, PositiveMethods) == [] && Lists(none, ForbiddenMethods) == [];
    assert Lists(last, PositiveMethods) == [["get"]] && Lists(last, ForbiddenMethods) == [];
  }

  lemma NothingInBoth(lists: seq<seq<string>>)
    requires lists == [["GET"], ["get"]]
    ensures NoValueLeft(lists, [])
  {
    assert "GET"[0] != "get"[0];
    forall v: string
      ensures !Possible(lists, [], v)
    {
      assert !(v in lists[0] && v in lists[1]);
    }
    NoValueLeftIsExact(lists, []);
  }

  /** Two spellings of one method defeat the test when names are not stored in one case. */
  lemma MixedCaseDefeatsMethodTest(conjunction: seq<Condition>)
    requires conjunction == [Method(["GET"]), Method(["get"])]
    ensures MethodConstraintsAreEmpty(conjunction) && LeavesMethod(conjunction, "GET")
  {
    MixedLists(conjunction);
    NothingInBoth(Lists(conjunction, PositiveMethods));
    assert Lower("get") == Lower("GET");
    assert Names(["GET"], ["GET"][0]) && EqIgnoreCase(["get"][0], "GET");
  }

  // ---------------------------------------------------------------------------
  // Conditions that need a response

  predicate RequiresResponse(c: Condition) {
    match c
    case ResHeaderPresent(_) => true
    case ResHeaderContains(_, _) => true
    case StatusIs(_) => true
    case All(cs) => exists i :: 0 <= i < |cs| && RequiresResponse(cs[i])
    case Any(cs) => forall i :: 0 <= i < |cs| ==> RequiresResponse(cs[i])
    case Not(inner) => DependsOnResponse(inner)
    case _ => false
  }

  /** A condition reported as needing a response never holds without one. */
  lemma {:induction false} RequiresResponseIsSound(w: World, c: Condition, x: Context)
    requires RequiresResponse(c) && x.res.None?
    ensures !Holds(w, c, x)
    decreases c
  {
    match c
    case All(cs) =>
      var i :| 0 <= i < |cs| && RequiresResponse(cs[i]);
      RequiresResponseIsSound(w, cs[i], x);
    case Any(cs) =>
      forall i | 0 <= i < |cs|
        ensures !Holds(w, cs[i], x)
      {
        RequiresResponseIsSound(w, cs[i], x);
      }
    case _ =>
  }
}
