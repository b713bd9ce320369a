/**
 The certificate cache: over every run of lookups and insertions it holds exactly
 the most recently used hosts, each with the value last inserted for it.
 */
module CertCache {
  import opened Text

  /** The list without a host, as `retain` leaves it. */
  function Without(hosts: seq<string>, host: string): seq<string> {
    if hosts == [] then []
    else if hosts[0] == host then Without(hosts[1..], host)
    else [hosts[0]] + Without(hosts[1..], host)
  }

  lemma {:induction false} WithoutMembers(hosts: seq<string>, host: string)
    ensures forall h :: h in Without(hosts, host) <==> h in hosts && h != host
    decreases |hosts|
  {
    if hosts != [] {
      WithoutMembers(hosts[1..], host);
    }
  }

  predicate Distinct(hosts: seq<string>) {
    forall i, j :: 0 <= i < j < |hosts| ==> hosts[i] != hosts[j]
  }

  /** Hosts in the order of their last use, each once. */
  function Recency(uses: seq<string>): seq<string> {
    if uses == [] then []
    else
      var host := uses[|uses| - 1];
      Without(Recency(uses[..|uses| - 1]), host) + [host]
  }

  /** The last `n` elements, or all. */
  function Last(hosts: seq<string>, n: nat): seq<string> {
    if |hosts| <= n then hosts else hosts[|hosts| - n..]
  }

  lemma RecencyGrows(uses: seq<string>, host: string)
    ensures Recency(uses + [host]) == Without(Recency(uses), host) + [host]
  {
    assert (uses + [host])[..|uses|] == uses;
  }

  lemma {:induction false} WithoutAbsent(hosts: seq<string>, host: string)
    requires host !in hosts
    ensures Without(hosts, host) == hosts
    decreases |hosts|
  {
    if hosts != [] {
      WithoutAbsent(hosts[1..], host);
    }
  }

  lemma {:induction false} WithoutKeepsDistinct(hosts: seq<string>, host: string)
    requires Distinct(hosts)
    ensures Distinct(Without(hosts, host))
    ensures host in hosts ==> |Without(hosts, host)| == |hosts| - 1
    decreases |hosts|
  {
    if hosts != [] {
      WithoutKeepsDistinct(hosts[1..], host);
      if hosts[0] == host {
        FirstIsAbsent(hosts);
        WithoutAbsent(hosts[1..], host);
      } else {
        FirstIsAbsent(hosts);
        WithoutMembers(hosts[1..], host);
        PrependKeepsDistinct(hosts[0], Without(hosts[1..], host));
      }
    }
  }

  lemma FirstIsAbsent(hosts: seq<string>)
    requires Distinct(hosts) && hosts != []
    ensures hosts[0] !in hosts[1..] && Distinct(hosts[1..])
  {
  }

  lemma PrependKeepsDistinct(host: string, hosts: seq<string>)
    requires Distinct(hosts) && host !in hosts
    ensures Distinct([host] + hosts)
  {
  }

  lemma AppendKeepsDistinct(hosts: seq<string>, host: string)
    requires Distinct(hosts) && host !in hosts
    ensures Distinct(hosts + [host])
  {
  }

  lemma {:induction false} WithoutParts(a: seq<string>, b: seq<string>, host: string)
    ensures Without(a + b, host) == Without(a, host) + Without(b, host)
    decreases |a|
  {
    if a == [] {
      assert a + b == b;
    } else {
      assert (a + b)[1..] == a[1..] + b;
      WithoutParts(a[1..], b, host);
    }
  }

  lemma {:induction false} RecencyIsDistinct(uses: seq<string>)
    ensures Distinct(Recency(uses))
    decreases |uses|
  {
    if uses != [] {
      RecencyIsDistinct(uses[..|uses| - 1]);
      var before, host := Recency(uses[..|uses| - 1]), uses[|uses| - 1];
      WithoutKeepsDistinct(before, host);
      WithoutMembers(before, host);
      AppendKeepsDistinct(Without(before, host), host);
    }
  }

  /** One past the position of the last use of a host, or zero. */
  function LastUse(uses: seq<string>, host: string): (n: nat)
    ensures n <= |uses|
  {
    if uses == [] then 0
    else if uses[|uses| - 1] == host then |uses|
    else LastUse(uses[..|uses| - 1], host)
  }

  lemma {:induction false} WithoutKeepsOrder(hosts: seq<string>, host: string, i: nat, j: nat) returns (k: nat, l: nat)
    requires i < j < |Without(hosts, host)|
    ensures k < l < |hosts| && hosts[k] == Without(hosts, host)[i] && hosts[l] == Without(hosts, host)[j]
    decreases |hosts|
  {
    if hosts[0] == host {
      k, l := WithoutKeepsOrder(hosts[1..], host, i, j);
      k, l := k + 1, l + 1;
    } else if i > 0 {
      k, l := WithoutKeepsOrder(hosts[1..], host, i - 1, j - 1);
      k, l := k + 1, l + 1;
    } else {
      WithoutMembers(hosts[1..], host);
      var rest := Without(hosts[1..], host);
      assert Without(hosts, host)[j] == rest[j - 1] && rest[j - 1] in rest;
      k := 0;
      var m :| 0 <= m < |hosts| - 1 && hosts[1..][m] == rest[j - 1];
      l := m + 1;
    }
  }

  /** Later in the list means used later. */
  lemma {:induction false} RecencyIsByLastUse(uses: seq<string>, i: nat, j: nat)
    requires i < j < |Recency(uses)|
    ensures LastUse(uses, Recency(uses)[i]) < LastUse(uses, Recency(uses)[j])
    decreases |uses|
  {
    var before, host := uses[..|uses| - 1], uses[|uses| - 1];
    var rest := Without(Recency(before), host);
    WithoutMembers(Recency(before), host);
    assert Recency(uses)[i] == rest[i] && rest[i] in rest;
    if j < |rest| {
      assert Recency(uses)[j] == rest[j] && rest[j] in rest;
      var k, l := WithoutKeepsOrder(Recency(before), host, i, j);
      RecencyIsByLastUse(before, k, l);
    }
  }

  /** Cuts a list where its last `n` elements begin. */
  lemma Cut(hosts: seq<string>, n: nat) returns (dropped: seq<string>, kept: seq<string>)
    requires Distinct(hosts)
    ensures hosts == dropped + kept && kept == Last(hosts, n) && Distinct(kept)
    ensures |kept| <= n && (|kept| < n ==> dropped == [])
    ensures forall h :: h in kept ==> h !in dropped
  {
    kept := Last(hosts, n);
    dropped := hosts[..|hosts| - |kept|];
    forall h | h in kept
      ensures h !in dropped
    {
      var i :| 0 <= i < |kept| && kept[i] == h;
      assert hosts[|dropped| + i] == h;
    }
  }

  lemma LastOf(dropped: seq<string>, kept: seq<string>, n: nat)
    requires |kept| <= n && (|kept| < n ==> dropped == [])
    ensures Last(dropped + kept, n) == kept
  {
  }

  /** A host that is listed moves to the end. */
  lemma TouchIsRecent(hosts: seq<string>, n: nat, host: string)
    requires Distinct(hosts) && host in Last(hosts, n)
    ensures Last(Without(hosts, host) + [host], n) == Without(Last(hosts, n), host) + [host]
  {
    var dropped, kept := Cut(hosts, n);
    WithoutParts(dropped, kept, host);
    WithoutAbsent(dropped, host);
    WithoutKeepsDistinct(kept, host);
    var rest := Without(kept, host);
    assert dropped + rest + [host] == dropped + (rest + [host]);
    LastOf(dropped, rest + [host], n);
  }

  /** A host that is not listed comes to the end, and the oldest one goes if there is no room. */
  lemma InsertIsRecent(hosts: seq<string>, n: nat, host: string)
    requires Distinct(hosts) && host !in Last(hosts, n) && n > 0
    ensures
      var kept := Last(hosts, n);
      Last(Without(hosts, host) + [host], n) == (if |kept| == n then kept[1..] else kept) + [host]
  {
    var dropped, kept := Cut(hosts, n);
    WithoutParts(dropped, kept, host);
    WithoutAbsent(kept, host);
    var gone := Without(dropped, host);
    if |kept| == n {
      ShiftCut(gone, kept, host);
      LastOf(gone + [kept[0]], kept[1..] + [host], n);
    } else {
      assert gone == [];
      assert gone + kept + [host] == [] + (kept + [host]);
      LastOf([], kept + [host], n);
    }
  }

  lemma ShiftCut(dropped: seq<string>, kept: seq<string>, host: string)
    requires kept != []
    ensures dropped + kept + [host] == dropped + [kept[0]] + (kept[1..] + [host])
  {
    assert kept == [kept[0]] + kept[1..];
  }

  ghost function Elements(hosts: seq<string>): set<string> {
    set h | h in hosts
  }

  lemma {:induction false} DistinctSize(hosts: seq<string>)
    requires Distinct(hosts)
    ensures |Elements(hosts)| == |hosts|
    decreases |hosts|
  {
    if hosts != [] {
      DistinctSize(hosts[1..]);
      assert Elements(hosts) == Elements(hosts[1..]) + {hosts[0]};
    }
  }

  lemma ElementsAfterTouch(hosts: seq<string>, host: string)
    ensures Elements(Without(hosts, host) + [host]) == Elements(hosts) + {host}
  {
    WithoutMembers(hosts, host);
  }

  lemma ElementsAfterPush(hosts: seq<string>, host: string)
    ensures Elements(hosts + [host]) == Elements(hosts) + {host}
  {
  }

  lemma ElementsAfterPop(hosts: seq<string>)
    requires Distinct(hosts) && hosts != []
    ensures Elements(hosts[1..]) == Elements(hosts) - {hosts[0]}
  {
    FirstIsAbsent(hosts);
    assert hosts == [hosts[0]] + hosts[1..];
  }

  /** The hosts listed are the most recently used ones. */
  predicate Ideal(order: seq<string>, uses: seq<string>, capacity: nat) {
    order == Last(Recency(uses), capacity)
  }

  lemma IdealIsDistinct(order: seq<string>, uses: seq<string>, capacity: nat)
    requires Ideal(order, uses, capacity)
    ensures Distinct(order) && |order| <= capacity
  {
    RecencyIsDistinct(uses);
  }

  lemma TouchIsIdeal(order: seq<string>, uses: seq<string>, capacity: nat, host: string)
    requires Ideal(order, uses, capacity) && host in order
    ensures Ideal(Without(order, host) + [host], uses + [host], capacity)
  {
    RecencyIsDistinct(uses);
    TouchIsRecent(Recency(uses), capacity, host);
    RecencyGrows(uses, host);
  }

  lemma AddIsIdeal(order: seq<string>, uses: seq<string>, capacity: nat, host: string)
    requires Ideal(order, uses, capacity) && host !in order && capacity > 0
    ensures Ideal((if |order| == capacity then order[1..] else order) + [host], uses + [host], capacity)
  {
    RecencyIsDistinct(uses);
    InsertIsRecent(Recency(uses), capacity, host);
    RecencyGrows(uses, host);
  }

  /** Every value cached is the last one inserted for its host. */
  predicate UpToDate<V(==)>(entries: map<string, V>, latest: map<string, V>) {
    forall h :: h in entries ==> h in latest && entries[h] == latest[h]
  }

  lemma StaysUpToDate<V>(entries: map<string, V>, latest: map<string, V>, dropped: set<string>, host: string, value: V)
    requires UpToDate(entries, latest)
    ensures UpToDate((entries - dropped)[host := value], latest[host := value])
    ensures UpToDate(entries[host := value], latest[host := value])
  {
  }

  class MitmCertCache<V(==)> {
    const capacity: nat
    var entries: map<string, V>
    var order: seq<string>

    /** Hosts in the order they were inserted or found, and the value last inserted for each. */
    ghost var uses: seq<string>
    ghost var latest: map<string, V>

    /** The cache is the ideal least-recently-used list. */
    ghost predicate Valid()
      reads this
    {
      && Ideal(order, uses, capacity)
      && entries.Keys == Elements(order)
      && UpToDate(entries, latest)
    }

    lemma Shape()
      requires Valid()
      ensures Distinct(order) && |entries| == |order| <= capacity
    {
      IdealIsDistinct(order, uses, capacity);
      DistinctSize(order);
      assert |entries.Keys| == |entries|;
    }

    constructor (capacity: nat)
      ensures Valid() && this.capacity == capacity && uses == [] && latest == map[]
    {
      this.capacity := capacity;
      entries, order := map[], [];
      uses, latest := [], map[];
    }

    method Touch(host: string)
      modifies this`order
      ensures order == Without(old(order), host) + [host]
    {
      order := Without(order, host) + [host];
    }

    method Get(host: string) returns (found: Option<V>)
      requires Valid()
      modifies this
      ensures Valid() && latest == old(latest) && entries == old(entries)
      ensures found == if host in old(order) then Some(latest[host]) else None
      ensures uses == if found.Some? then old(uses) + [host] else old(uses)
    {
      if host !in entries {
        return None;
      }
      found := Some(entries[host]);
      TouchIsIdeal(order, uses, capacity, host);
      ElementsAfterTouch(order, host);
      uses := uses + [host];
      Touch(host);
    }

    method Insert(host: string, config: V)
      requires Valid()
      modifies this
      ensures Valid()
      ensures uses == if capacity == 0 then old(uses) else old(uses) + [host]
      ensures latest == if capacity == 0 then old(latest) else old(latest)[host := config]
      ensures entries ==
        if capacity == 0 then old(entries)
        else if host in old(order) || |old(order)| < capacity then old(entries)[host := config]
        else (old(entries) - {old(order)[0]})[host := config]
    {
      if capacity == 0 {
        return;
      }
      StaysUpToDate(entries, latest, if order == [] then {} else {order[0]}, host, config);
      if host in entries {
        Refresh(host, config);
      } else {
        Add(host, config);
      }
      uses, latest := uses + [host], latest[host := config];
    }

    method Refresh(host: string, config: V)
      requires Valid() && host in order
      modifies this`entries, this`order
      ensures Ideal(order, uses + [host], capacity) && entries.Keys == Elements(order)
      ensures entries == old(entries)[host := config]
    {
      TouchIsIdeal(order, uses, capacity, host);
      ElementsAfterTouch(order, host);
      entries := entries[host := config];
      Touch(host);
    }

    method Add(host: string, config: V)
      requires Valid() && host !in order && capacity > 0
      modifies this`entries, this`order
      ensures Ideal(order, uses + [host], capacity) && entries.Keys == Elements(order)
      ensures entries ==
        (if |old(order)| < capacity then old(entries) else old(entries) - {old(order)[0]})[host := config]
    {
      IdealIsDistinct(order, uses, capacity);
      AddIsIdeal(order, uses, capacity, host);
      MakeRoom();
      ElementsAfterPush(order, host);
      order := order + [host];
      entries := entries[host := config];
    }

    /** The eviction loop: at most the oldest host goes. */
    method MakeRoom()
      requires entries.Keys == Elements(order) && Distinct(order) && 0 < capacity && |order| <= capacity
      modifies this`entries, this`order
      ensures order == if |old(order)| == capacity then old(order)[1..] else old(order)
      ensures entries == if |old(order)| == capacity then old(entries) - {old(order)[0]} else old(entries)
      ensures entries.Keys == Elements(order)
    {
      DistinctSize(order);
      assert |entries.Keys| == |entries|;
      ghost var was := order;
      while |entries| >= capacity
        invariant order == was || (|was| == capacity && order == was[1..])
        invariant entries == if order == was then old(entries) else old(entries) - {was[0]}
        invariant |entries| == |order| && entries.Keys == Elements(order)
        decreases |order|
      {
        if order == [] {
          break;
        }
        var oldest := order[0];
        FirstIsAbsent(order);
        ElementsAfterPop(order);
        order := order[1..];
        entries := entries - {oldest};
        DistinctSize(order);
        assert |entries.Keys| == |entries|;
      }
    }
  }
}
