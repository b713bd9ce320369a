/**
 Bounded collection of a streamed body: what is collected and what is left to
 read together are the stream.
 */
module BoundedBody {
  import opened Text
  import opened Bytes

  type Trailers = seq<(string, string)>

  datatype Item = Data(data: seq<Byte>) | Trailing(trailers: Trailers) | Fails(error: string)

  datatype Collected = Complete(body: seq<Byte>, trailers: Trailers)
    | Overflow(prefix: seq<Byte>) | Error(error: string)

  function DataOf(items: seq<Item>): seq<Byte> {
    if items == [] then []
    else (if items[0].Data? then items[0].data else []) + DataOf(items[1..])
  }

  function TrailersOf(items: seq<Item>): Trailers {
    if items == [] then []
    else (if items[0].Trailing? then items[0].trailers else []) + TrailersOf(items[1..])
  }

  /** Length of the part before the first error. */
  function Good(items: seq<Item>): (n: nat)
    ensures n <= |items| && (n < |items| ==> items[n].Fails?)
    ensures forall i :: 0 <= i < n ==> !items[i].Fails?
  {
    if items == [] || items[0].Fails? then 0 else 1 + Good(items[1..])
  }

  lemma {:induction false} DataParts(a: seq<Item>, b: seq<Item>)
    ensures DataOf(a + b) == DataOf(a) + DataOf(b)
    decreases |a|
  {
    if a == [] {
      assert a + b == b;
    } else {
      var first := if a[0].Data? then a[0].data else [];
      assert (a + b)[1..] == a[1..] + b;
      DataParts(a[1..], b);
      Regroup(first, DataOf(a[1..]), DataOf(b));
    }
  }

  lemma {:induction false} TrailerParts(a: seq<Item>, b: seq<Item>)
    ensures TrailersOf(a + b) == TrailersOf(a) + TrailersOf(b)
    decreases |a|
  {
    if a == [] {
      assert a + b == b;
    } else {
      var first := if a[0].Trailing? then a[0].trailers else [];
      assert (a + b)[1..] == a[1..] + b;
      TrailerParts(a[1..], b);
      Regroup(first, TrailersOf(a[1..]), TrailersOf(b));
    }
  }

  lemma Parts(a: seq<Item>, b: seq<Item>)
    ensures DataOf(a + b) == DataOf(a) + DataOf(b)
    ensures TrailersOf(a + b) == TrailersOf(a) + TrailersOf(b)
  {
    DataParts(a, b);
    TrailerParts(a, b);
  }

  lemma {:induction false} GoodIs(items: seq<Item>, n: nat)
    requires n <= |items| && forall i :: 0 <= i < n ==> !items[i].Fails?
    requires n < |items| ==> items[n].Fails?
    ensures Good(items) == n
    decreases n
  {
    if n > 0 {
      GoodIs(items[1..], n - 1);
    }
  }

  lemma ThreeParts(a: seq<Item>, b: seq<Item>, c: seq<Item>)
    ensures DataOf(a + (b + c)) == DataOf(a) + (DataOf(b) + DataOf(c))
    ensures TrailersOf(a + (b + c)) == TrailersOf(a) + (TrailersOf(b) + TrailersOf(c))
  {
    Parts(a, b + c);
    Parts(b, c);
  }

  lemma OneFrame(data: seq<Byte>)
    ensures DataOf([Data(data)]) == data && TrailersOf([Data(data)]) == []
  {
  }

  lemma TakeNext(items: seq<Item>, n: nat)
    requires n < |items|
    ensures DataOf(items[..n + 1]) == DataOf(items[..n]) + (if items[n].Data? then items[n].data else [])
    ensures TrailersOf(items[..n + 1])
         == TrailersOf(items[..n]) + (if items[n].Trailing? then items[n].trailers else [])
  {
    assert items[..n + 1] == items[..n] + [items[n]];
    Parts(items[..n], [items[n]]);
  }

  lemma {:induction false} DataGrows(items: seq<Item>, n: nat, m: nat)
    requires n <= m <= |items|
    ensures |DataOf(items[..n])| <= |DataOf(items[..m])|
    decreases m - n
  {
    if n < m {
      TakeNext(items, n);
      DataGrows(items, n + 1, m);
    }
  }

  /** The frame at `k` is the first to go over the limit: it is cut there, and all that follows stays. */
  predicate CutAt(items: seq<Item>, limit: nat, k: nat, prefix: seq<Byte>, rest: seq<Item>) {
    && k < Good(items) && items[k].Data? && |DataOf(items[..k])| <= limit < |DataOf(items[..k])| + |items[k].data|
    && var taken := limit - |DataOf(items[..k])|;
       prefix == DataOf(items[..k]) + items[k].data[..taken] && rest == [Data(items[k].data[taken..])] + items[k + 1..]
  }

  /** What bounded collection owes its caller; `rest` is what can still be read. */
  ghost predicate Collects(items: seq<Item>, limit: nat, r: Collected, rest: seq<Item>) {
    var n := Good(items);
    if |DataOf(items[..n])| > limit then r.Overflow? && exists k: nat :: CutAt(items, limit, k, r.prefix, rest)
    else if n < |items| then r == Error(items[n].error) && rest == items[n + 1..]
    else r == Complete(DataOf(items), TrailersOf(items)) && rest == []
  }

  /** After an overflow, prefix and rest hold the data of the stream; trailers before the cut are lost. */
  lemma OverflowConserves(items: seq<Item>, limit: nat, k: nat, prefix: seq<Byte>, rest: seq<Item>)
    requires CutAt(items, limit, k, prefix, rest)
    ensures |prefix| == limit && prefix + DataOf(rest) == DataOf(items)
    ensures TrailersOf(items) == TrailersOf(items[..k]) + TrailersOf(rest)
    ensures TrailersOf(rest) == TrailersOf(items) <==> TrailersOf(items[..k]) == []
  {
    var data, after, taken := items[k].data, items[k + 1..], limit - |DataOf(items[..k])|;
    assert items == items[..k] + ([Data(data)] + after);
    ThreeParts(items[..k], [Data(data)], after);
    OneFrame(data);
    Parts([Data(data[taken..])], after);
    OneFrame(data[taken..]);
    assert data == data[..taken] + data[taken..];
    RegroupFour(DataOf(items[..k]), data[..taken], data[taken..], DataOf(after));
  }

  /** After an overflow, the first error and all behind it are still to come. */
  lemma OverflowKeepsError(items: seq<Item>, limit: nat, k: nat, prefix: seq<Byte>, rest: seq<Item>)
    requires CutAt(items, limit, k, prefix, rest)
    ensures Good(rest) == Good(items) - k && rest[Good(rest)..] == items[Good(items)..]
  {
    assert forall i :: 0 < i < |rest| ==> rest[i] == items[k + i];
    GoodIs(rest, Good(items) - k);
  }

  /** The first `n` frames have been collected. */
  predicate Collecting(items: seq<Item>, n: nat, body: seq<Byte>, trailers: Trailers, limit: nat) {
    && n <= |items| && |body| <= limit && (forall i :: 0 <= i < n ==> !items[i].Fails?)
    && body == DataOf(items[..n]) && trailers == TrailersOf(items[..n])
  }

  lemma DataIsCollected(items: seq<Item>, n: nat, body: seq<Byte>, trailers: Trailers, limit: nat)
    requires Collecting(items, n, body, trailers, limit) && n < |items|
    requires items[n].Data? && |body| + |items[n].data| <= limit
    ensures Collecting(items, n + 1, body + items[n].data, trailers, limit)
  {
    TakeNext(items, n);
  }

  lemma TrailersAreCollected(items: seq<Item>, n: nat, body: seq<Byte>, trailers: Trailers, limit: nat)
    requires Collecting(items, n, body, trailers, limit) && n < |items| && items[n].Trailing?
    ensures Collecting(items, n + 1, body, trailers + items[n].trailers, limit)
  {
    TakeNext(items, n);
  }

  lemma CollectsAll(items: seq<Item>, limit: nat, body: seq<Byte>, trailers: Trailers)
    requires Collecting(items, |items|, body, trailers, limit)
    ensures Collects(items, limit, Complete(body, trailers), [])
  {
    GoodIs(items, |items|);
    assert items[..|items|] == items;
  }

  lemma CollectsError(items: seq<Item>, limit: nat, n: nat, body: seq<Byte>, trailers: Trailers)
    requires Collecting(items, n, body, trailers, limit) && n < |items| && items[n].Fails?
    ensures Collects(items, limit, Error(items[n].error), items[n + 1..])
  {
    GoodIs(items, n);
  }

  lemma CollectsPrefix(items: seq<Item>, limit: nat, n: nat, taken: nat, body: seq<Byte>, trailers: Trailers)
    requires Collecting(items, n, body, trailers, limit) && n < |items| && items[n].Data?
    requires taken < |items[n].data| && |body| + taken == limit
    ensures Collects(items, limit, Overflow(body + items[n].data[..taken]),
                     [Data(items[n].data[taken..])] + items[n + 1..])
  {
    TakeNext(items, n);
    DataGrows(items, n + 1, Good(items));
    assert CutAt(items, limit, n, body + items[n].data[..taken], [Data(items[n].data[taken..])] + items[n + 1..]);
  }

  class UpstreamBody {
    var pending: Option<Item>
    var receiver: seq<Item>

    /** All that later calls of `Next` return. */
    ghost function Items(): seq<Item>
      reads this
    {
      (if pending.Some? then [pending.value] else []) + receiver
    }

    constructor (items: seq<Item>)
      ensures Items() == items
    {
      pending, receiver := None, items;
    }

    method Next() returns (item: Option<Item>)
      modifies this
      ensures pending.None?
      ensures old(Items()) == [] ==> item.None? && Items() == []
      ensures old(Items()) != [] ==> item == Some(old(Items())[0]) && Items() == old(Items())[1..]
    {
      if pending.Some? {
        item, pending := pending, None;
      } else if receiver == [] {
        item := None;
      } else {
        item, receiver := Some(receiver[0]), receiver[1..];
      }
    }

    /** Keeps the unread part of a frame for the next call. */
    method PutBack(remaining: seq<Byte>)
      requires pending.None? && remaining != []
      modifies this`pending
      ensures Items() == [Data(remaining)] + old(Items())
    {
      if remaining != [] {
        pending := Some(Data(remaining));
      }
    }

    /** Collects up to `limit` bytes and leaves the rest to be read. */
    method CollectBounded(limit: nat) returns (r: Collected)
      modifies this
      ensures Collects(old(Items()), limit, r, Items())
    {
      ghost var items := Items();
      ghost var n := 0;
      var body: seq<Byte>, trailers: Trailers := [], [];
      while true
        invariant Collecting(items, n, body, trailers, limit) && Items() == items[n..]
        decreases |items| - n
      {
        var item := Next();
        if item.None? {
          CollectsAll(items, limit, body, trailers);
          return Complete(body, trailers);
        }
        assert item.value == items[n] && Items() == items[n + 1..];
        match item.value {
          case Fails(error) =>
            CollectsError(items, limit, n, body, trailers);
            return Error(error);
          case Data(data) =>
            var available := limit - |body|;
            if |data| > available {
              CollectsPrefix(items, limit, n, available, body, trailers);
              PutBack(data[available..]);
              return Overflow(body + data[..available]);
            }
            DataIsCollected(items, n, body, trailers, limit);
            body := body + data;
          case Trailing(seen) =>
            TrailersAreCollected(items, n, body, trailers, limit);
            trailers := trailers + seen;
        }
        n := n + 1;
      }
    }
  }
}
