/**
 The trace spill log as a state machine over appends, segment starts and evictions,
 with writes and removals that may fail.
 */
module SpillLog {
  import opened Text
  import opened Bytes
  import opened Utf8
  import opened Tokens
  import opened SpillFiles

  /** A live segment: what the state counts, and the files it owns. */
  datatype Segment = Segment(
    index: nat,
    compression: Compression,
    bytes: nat,
    indexBytes: nat,
    records: nat,
    files: Files)
  {
    function Size(): nat { bytes + indexBytes }

    /** The counts are those of the files. */
    predicate Counted() {
      bytes == |files.Held()| && indexBytes == |files.Indexed()|
    }
  }

  function Total(segments: seq<Segment>): nat {
    if segments == [] then 0 else segments[0].Size() + Total(segments[1..])
  }

  lemma {:induction false} TotalAppend(a: seq<Segment>, b: seq<Segment>)
    ensures Total(a + b) == Total(a) + Total(b)
    decreases |a|
  {
    if a == [] {
      assert a + b == b;
    } else {
      assert (a + b)[1..] == a[1..] + b;
      TotalAppend(a[1..], b);
    }
  }

  datatype Config = Config(codec: Codec, compression: Compression, segmentBytes: nat, budget: nat)

  function SaturatingSub(a: nat, b: nat): nat {
    if b <= a then a - b else 0
  }

  /** How many of the oldest segments must go. */
  function Excess(segments: seq<Segment>, bytes: nat, budget: nat): (n: nat)
    ensures n <= |segments|
    decreases |segments|
  {
    if budget == 0 || bytes <= budget || |segments| <= 1 then 0
    else
      1 + Excess(segments[1..], SaturatingSub(bytes, segments[0].Size()), budget)
  }

  /** All `n` removals are done, or those before the one that fails. */
  predicate RemovalsDone(ok: bool, removed: nat, n: nat, fault: Option<nat>) {
    if fault.Some? && fault.value < n then !ok && removed == fault.value else ok && removed == n
  }

  lemma ExcessStep(segments: seq<Segment>, bytes: nat, budget: nat)
    requires 0 < budget < bytes && |segments| > 1 && Total(segments) <= bytes
    ensures segments[0].Size() <= bytes
    ensures Excess(segments, bytes, budget) == 1 + Excess(segments[1..], bytes - segments[0].Size(), budget)
  {
  }

  /** Where the eviction loop stands after `removed` of the segments it began with. */
  predicate Evicting(was: seq<Segment>, wasBytes: nat, removed: nat, segments: seq<Segment>, bytes: nat, budget: nat) {
    && removed <= |was| && segments == was[removed..] && bytes == wasBytes - Total(was[..removed])
    && Excess(was, wasBytes, budget) == removed + Excess(segments, bytes, budget)
  }

  lemma EvictingStep(was: seq<Segment>, wasBytes: nat, removed: nat, segments: seq<Segment>, bytes: nat, budget: nat)
    requires Evicting(was, wasBytes, removed, segments, bytes, budget)
    requires 0 < budget < bytes && |segments| > 1 && Total(segments) <= bytes
    ensures segments[0].Size() <= bytes && segments[1..] == was[removed + 1..]
    ensures Evicting(was, wasBytes, removed + 1, segments[1..], bytes - segments[0].Size(), budget)
    ensures Excess(was, wasBytes, budget) > removed
  {
    TotalOfNext(was, removed);
    ExcessStep(segments, bytes, budget);
    assert was[removed..][0] == was[removed] && was[removed..][1..] == was[removed + 1..];
  }

  /** What enforcing the budget owes: all removals done, or those before the failing one. */
  predicate BudgetEnforced(was: seq<Segment>, wasBytes: nat, budget: nat, fault: Option<nat>,
                           ok: bool, removed: nat, segments: seq<Segment>, bytes: nat)
  {
    && RemovalsDone(ok, removed, Excess(was, wasBytes, budget), fault)
    && removed <= |was| && (!ok ==> removed < |was|)
    && segments == (if ok then was[removed..] else was[removed + 1..])
    && bytes == wasBytes - Total(was[..removed])
  }

  lemma EvictingEnds(was: seq<Segment>, wasBytes: nat, removed: nat, segments: seq<Segment>, bytes: nat, budget: nat,
                     fault: Option<nat>)
    requires Evicting(was, wasBytes, removed, segments, bytes, budget) && (fault.Some? ==> fault.value >= removed)
    requires budget == 0 || bytes <= budget || |segments| <= 1
    ensures BudgetEnforced(was, wasBytes, budget, fault, true, removed, segments, bytes)
  {
  }

  lemma EvictingFails(was: seq<Segment>, wasBytes: nat, removed: nat, segments: seq<Segment>, bytes: nat, budget: nat)
    requires Evicting(was, wasBytes, removed, segments, bytes, budget)
    requires 0 < budget < bytes && |segments| > 1 && Total(segments) <= bytes
    ensures BudgetEnforced(was, wasBytes, budget, Some(removed), false, removed, segments[1..], bytes)
  {
    EvictingStep(was, wasBytes, removed, segments, bytes, budget);
  }

  /** Whether a record of the given size opens a segment. */
  predicate Opens(segments: seq<Segment>, config: Config, size: nat) {
    || segments == []
    || var active := segments[|segments| - 1];
       active.compression != config.compression || (active.bytes > 0 && active.bytes + size > config.segmentBytes)
  }

  function Fresh(index: nat, compression: Compression): Segment {
    Segment(index, compression, 0, 0, 0, NO_FILES)
  }

  function Grown(segment: Segment, config: Config, r: Record): Segment {
    var files := Files(Some(segment.files.Held() + r.stored),
                       Some(segment.files.Indexed() + IndexBytes(segment, config, r)));
    segment.(bytes := segment.bytes + |r.stored|,
             indexBytes := segment.indexBytes + |IndexBytes(segment, config, r)|,
             records := segment.records + 1,
             files := files)
  }

  /** The index line of a record at the end of a segment. */
  function IndexBytes(segment: Segment, config: Config, r: Record): seq<Byte> {
    Encode(IndexingOf(config.codec, config.compression)(r, segment.bytes) + "\n")
  }

  /** The segments after a record is written and before the budget is enforced. */
  function Placed(segments: seq<Segment>, next: nat, config: Config, r: Record): seq<Segment> {
    if Opens(segments, config, |r.stored|) then segments + [Grown(Fresh(next, config.compression), config, r)]
    else segments[..|segments| - 1] + [Grown(segments[|segments| - 1], config, r)]
  }

  // ---------------------------------------------------------------------------
  // Invariants of the counts

  /** Segments begun in the run have numbers from `first` on; they are in strict order after all others. */
  predicate Numbered(segments: seq<Segment>, first: nat, next: nat) {
    && first <= next
    && (forall i :: 0 <= i < |segments| ==> segments[i].index < next)
    && forall i, j :: 0 <= i < j < |segments| && segments[j].index >= first ==> segments[i].index < segments[j].index
  }

  predicate Fits(s: Segment, limit: nat) {
    s.bytes <= limit || s.records <= 1
  }

  predicate AllFit(segments: seq<Segment>, first: nat, limit: nat) {
    forall i :: 0 <= i < |segments| && segments[i].index >= first ==> Fits(segments[i], limit)
  }

  predicate Started(s: Segment) {
    s.bytes == 0 ==> s.records == 0
  }

  /** In a segment begun in the run, records have bytes. */
  predicate AllStarted(segments: seq<Segment>, first: nat) {
    forall i :: 0 <= i < |segments| && segments[i].index >= first ==> Started(segments[i])
  }

  /** Whatever the writes and removals do, the counts keep this. */
  predicate Sane(segments: seq<Segment>, first: nat, next: nat, limit: nat) {
    Numbered(segments, first, next) && AllFit(segments, first, limit) && AllStarted(segments, first)
  }

  lemma PushKeepsSane(segments: seq<Segment>, s: Segment, first: nat, limit: nat)
    requires Sane(segments, first, s.index, limit) && Fits(s, limit) && Started(s)
    ensures Sane(segments + [s], first, s.index + 1, limit)
  {
  }

  lemma ReplaceKeepsSane(segments: seq<Segment>, s: Segment, first: nat, next: nat, limit: nat)
    requires segments != [] && s.index == segments[|segments| - 1].index
    requires Sane(segments, first, next, limit) && (s.index >= first ==> Fits(s, limit) && Started(s))
    ensures Sane(segments[..|segments| - 1] + [s], first, next, limit)
  {
  }

  lemma DropKeepsSane(segments: seq<Segment>, n: nat, first: nat, next: nat, limit: nat)
    requires n <= |segments| && Sane(segments, first, next, limit)
    ensures Sane(segments[n..], first, next, limit)
  {
  }

  lemma PlacedKeepsSane(segments: seq<Segment>, first: nat, next: nat, config: Config, r: Record)
    requires Sane(segments, first, next, config.segmentBytes) && r.stored != []
    ensures Sane(Placed(segments, next, config, r), first,
                 if Opens(segments, config, |r.stored|) then next + 1 else next, config.segmentBytes)
  {
    if Opens(segments, config, |r.stored|) {
      PushKeepsSane(segments, Grown(Fresh(next, config.compression), config, r), first, config.segmentBytes);
    } else {
      var last := segments[|segments| - 1];
      ReplaceKeepsSane(segments, Grown(last, config, r), first, next, config.segmentBytes);
    }
  }

  lemma PlacedTotal(segments: seq<Segment>, next: nat, config: Config, r: Record)
    ensures
      var active := if Opens(segments, config, |r.stored|) then Fresh(next, config.compression)
                    else segments[|segments| - 1];
      Total(Placed(segments, next, config, r)) == Total(segments) + |r.stored| + |IndexBytes(active, config, r)|
  {
    if Opens(segments, config, |r.stored|) {
      TotalAppend(segments, [Grown(Fresh(next, config.compression), config, r)]);
    } else {
      var last := segments[|segments| - 1];
      TotalAppend(segments[..|segments| - 1], [Grown(last, config, r)]);
      TotalAppend(segments[..|segments| - 1], [last]);
      assert segments == segments[..|segments| - 1] + [last];
    }
  }

  // ---------------------------------------------------------------------------
  // How much is removed

  /** The fewest oldest segments go that meet the budget or leave one segment. */
  lemma {:induction false} ExcessIsLeast(segments: seq<Segment>, bytes: nat, budget: nat)
    requires Total(segments) <= bytes
    ensures
      var n := Excess(segments, bytes, budget);
      && Total(segments[..n]) <= bytes
      && (budget == 0 ==> n == 0)
      && (budget == 0 || bytes - Total(segments[..n]) <= budget || |segments| - n <= 1)
    ensures forall k :: 0 <= k < Excess(segments, bytes, budget) ==>
      |segments| - k > 1 && bytes - Total(segments[..k]) > budget
    decreases |segments|
  {
    var n := Excess(segments, bytes, budget);
    if n > 0 {
      var s, rest := segments[0], segments[1..];
      ExcessIsLeast(rest, bytes - s.Size(), budget);
      TakeTotal(segments, n);
      forall k | 0 < k < n
        ensures |segments| - k > 1 && bytes - Total(segments[..k]) > budget
      {
        TakeTotal(segments, k);
        assert |rest| - (k - 1) > 1 && bytes - s.Size() - Total(rest[..k - 1]) > budget;
      }
    }
  }

  lemma TakeTotal(segments: seq<Segment>, k: nat)
    requires 0 < k <= |segments|
    ensures Total(segments[..k]) == segments[0].Size() + Total(segments[1..][..k - 1])
  {
    assert segments[..k][1..] == segments[1..][..k - 1];
  }

  // ---------------------------------------------------------------------------
  // Invariants of the contents

  /** What the files of a segment held before the run, and the records the run wrote. */
  datatype Content = Content(base: Files, records: seq<Record>)

  predicate Holds(s: Segment, c: Content, codec: Codec, first: nat) {
    && s.files == WriteAll(IndexingOf(codec, s.compression), c.base, c.records) && s.Counted()
    && AllSound(codec, s.compression, c.records)
    && (s.index >= first ==> c.base == NO_FILES && s.records == |c.records|)
  }

  predicate AllHold(segments: seq<Segment>, contents: seq<Content>, codec: Codec, first: nat) {
    |contents| == |segments| && forall i :: 0 <= i < |segments| ==> Holds(segments[i], contents[i], codec, first)
  }

  function Flat(contents: seq<Content>): seq<Record> {
    if contents == [] then [] else contents[0].records + Flat(contents[1..])
  }

  lemma {:induction false} FlatAppend(a: seq<Content>, b: seq<Content>)
    ensures Flat(a + b) == Flat(a) + Flat(b)
    decreases |a|
  {
    if a == [] {
      assert a + b == b;
    } else {
      assert (a + b)[1..] == a[1..] + b;
      FlatAppend(a[1..], b);
    }
  }

  lemma FreshHolds(index: nat, codec: Codec, compression: Compression, first: nat)
    ensures Holds(Fresh(index, compression), Content(NO_FILES, []), codec, first)
  {
  }

  lemma GrownHolds(s: Segment, c: Content, config: Config, first: nat, r: Record)
    requires Holds(s, c, config.codec, first) && s.compression == config.compression
    requires IsSound(config.codec, config.compression, r)
    ensures Holds(Grown(s, config, r), Content(c.base, c.records + [r]), config.codec, first)
  {
    var records := c.records + [r];
    assert records[..|records| - 1] == c.records;
  }

  /** The contents after a record is written, segment by segment. */
  function Noted(segments: seq<Segment>, contents: seq<Content>, config: Config, r: Record): seq<Content>
    requires |contents| == |segments|
  {
    if Opens(segments, config, |r.stored|) then contents + [Content(NO_FILES, [r])]
    else
      var last := contents[|contents| - 1];
      contents[..|contents| - 1] + [Content(last.base, last.records + [r])]
  }

  lemma PushHolds(segments: seq<Segment>, contents: seq<Content>, s: Segment, c: Content, codec: Codec, first: nat)
    requires AllHold(segments, contents, codec, first) && Holds(s, c, codec, first)
    ensures AllHold(segments + [s], contents + [c], codec, first)
  {
  }

  lemma AllButLastHold(segments: seq<Segment>, contents: seq<Content>, codec: Codec, first: nat)
    requires AllHold(segments, contents, codec, first) && segments != []
    ensures AllHold(segments[..|segments| - 1], contents[..|contents| - 1], codec, first)
    ensures Holds(segments[|segments| - 1], contents[|contents| - 1], codec, first)
  {
  }

  lemma PlacedHolds(segments: seq<Segment>, contents: seq<Content>, next: nat, config: Config, first: nat, r: Record)
    requires AllHold(segments, contents, config.codec, first) && IsSound(config.codec, config.compression, r)
    ensures AllHold(Placed(segments, next, config, r), Noted(segments, contents, config, r), config.codec, first)
  {
    if Opens(segments, config, |r.stored|) {
      var s, c := Fresh(next, config.compression), Content(NO_FILES, []);
      FreshHolds(next, config.codec, config.compression, first);
      GrownHolds(s, c, config, first, r);
      assert [] + [r] == [r];
      PushHolds(segments, contents, Grown(s, config, r), Content(NO_FILES, [r]), config.codec, first);
    } else {
      var s, c := segments[|segments| - 1], contents[|contents| - 1];
      AllButLastHold(segments, contents, config.codec, first);
      GrownHolds(s, c, config, first, r);
      PushHolds(segments[..|segments| - 1], contents[..|contents| - 1], Grown(s, config, r),
                Content(c.base, c.records + [r]), config.codec, first);
    }
  }

  lemma FlatPush(before: seq<Content>, c: Content)
    ensures Flat(before + [c]) == Flat(before) + c.records
  {
    FlatAppend(before, [c]);
    assert [c][1..] == [] && c.records + [] == c.records;
  }

  lemma NotedAdds(segments: seq<Segment>, contents: seq<Content>, config: Config, r: Record)
    requires |contents| == |segments|
    ensures Flat(Noted(segments, contents, config, r)) == Flat(contents) + [r]
  {
    if Opens(segments, config, |r.stored|) {
      FlatPush(contents, Content(NO_FILES, [r]));
    } else {
      var before, last := contents[..|contents| - 1], contents[|contents| - 1];
      assert contents == before + [last];
      FlatPush(before, last);
      FlatPush(before, Content(last.base, last.records + [r]));
      Regroup(Flat(before), last.records, [r]);
    }
  }

  // ---------------------------------------------------------------------------
  // The state machine

  /** How an append to a file fails: the file cannot be opened, or an error comes after `n` bytes. */
  datatype Failure = NotOpened | Cut(n: nat)

  /** Which writes fail, and which removal. */
  datatype Faults = Faults(data: Option<Failure>, index: Option<Failure>, removal: Option<nat>)
  {
    predicate Writes() { data.None? && index.None? }
  }

  function Prefix(bytes: seq<Byte>, n: nat): seq<Byte> {
    if n <= |bytes| then bytes[..n] else bytes
  }

  /** A file after an append that fails. */
  function AfterFailure(file: Option<seq<Byte>>, bytes: seq<Byte>, failure: Failure): Option<seq<Byte>> {
    match failure
    case NotOpened => file
    case Cut(n) => Some((if file.Some? then file.value else []) + Prefix(bytes, n))
  }

  /** The files of a segment after a write that fails; the index is written after the data. */
  function TornFiles(files: Files, stored: seq<Byte>, line: seq<Byte>, faults: Faults): Files {
    if faults.data.Some? then Files(AfterFailure(files.data, stored, faults.data.value), files.index)
    else if faults.index.Some? then
      Files(Some(files.Held() + stored), AfterFailure(files.index, line, faults.index.value))
    else files
  }

  /** The segments after a write to the active one that fails: its counts stay as they were. */
  function Torn(segments: seq<Segment>, config: Config, r: Record, faults: Faults): seq<Segment>
    requires segments != []
  {
    var active := segments[|segments| - 1];
    segments[..|segments| - 1]
    + [active.(files := TornFiles(active.files, r.stored, IndexBytes(active, config, r), faults))]
  }

  /** The segments with the one that a record of the given size goes to at the end. */
  function Opened(segments: seq<Segment>, next: nat, config: Config, size: nat): (r: seq<Segment>)
    ensures r != []
  {
    if Opens(segments, config, size) then segments + [Fresh(next, config.compression)] else segments
  }

  /** Every segment was begun in the run and has a record. */
  predicate AllBegun(segments: seq<Segment>, contents: seq<Content>, first: nat) {
    |contents| == |segments|
    && forall i :: 0 <= i < |segments| ==> segments[i].index >= first && contents[i].records != []
  }

  lemma PlacedBegun(segments: seq<Segment>, contents: seq<Content>, next: nat, config: Config, r: Record, first: nat)
    requires AllBegun(segments, contents, first) && next >= first
    ensures AllBegun(Placed(segments, next, config, r), Noted(segments, contents, config, r), first)
  {
    var placed, noted := Placed(segments, next, config, r), Noted(segments, contents, config, r);
    var n := |placed| - 1;
    assert forall i :: 0 <= i < n ==> placed[i] == segments[i] && noted[i] == contents[i];
    assert r in noted[n].records;
  }

  /** Segments as they are found: their counts are those of the files, and they are in order. */
  predicate AsOnDisk(found: seq<Segment>) {
    && (forall i :: 0 <= i < |found| ==> found[i].Counted())
    && forall i, j :: 0 <= i < j < |found| ==> found[i].index <= found[j].index
  }

  function NextIndex(found: seq<Segment>): nat {
    if found == [] then 1 else found[|found| - 1].index + 1
  }

  class Log {
    const config: Config
    var next: nat
    var segments: seq<Segment>
    var bytesOnDisk: nat
    var evicted: nat

    /** Number of the first segment begun in the run. */
    ghost const first: nat
    ghost var contents: seq<Content>
    ghost var gone: seq<Record>

    /** Kept by every call, whatever fails. */
    ghost predicate Valid()
      reads this
    {
      && config.codec.Lawful()
      && Sane(segments, first, next, config.segmentBytes)
      && |contents| == |segments| && Total(segments) <= bytesOnDisk
    }

    /** Kept by every call whose writes succeed: the files hold exactly the records written. */
    ghost predicate Faithful()
      reads this
    {
      AllHold(segments, contents, config.codec, first)
    }

    /** Kept by every call whose writes succeed in a directory that was empty. */
    ghost predicate Begun()
      reads this
    {
      AllBegun(segments, contents, first)
    }

    twostate predicate Keeps()
      reads this
    {
      (old(Faithful()) ==> Faithful()) && (old(Begun()) ==> Begun())
    }

    /** Every record the run has written, in order: those removed and those still live. */
    ghost function All(): seq<Record>
      reads this
    {
      gone + Flat(contents)
    }

    /** Takes over the segments found on disk, oldest first. */
    constructor (config: Config, found: seq<Segment>)
      requires config.codec.Lawful() && AsOnDisk(found)
      ensures Valid() && Faithful() && All() == [] && (found == [] ==> Begun())
      ensures this.config == config && segments == found && evicted == 0 && bytesOnDisk == Total(found)
    {
      this.config := config;
      segments, evicted, bytesOnDisk := found, 0, Total(found);
      next := NextIndex(found);
      first := NextIndex(found);
      gone := [];
      contents := Untouched(found);
      new;
      TakenOver(found, config);
    }

    method StartSegment()
      requires Valid()
      modifies this`next, this`segments, this`contents
      ensures Valid() && (old(Faithful()) ==> Faithful()) && All() == old(All())
      ensures next == old(next) + 1 && segments == old(segments) + [Fresh(old(next), config.compression)]
      ensures contents == old(contents) + [Content(NO_FILES, [])]
    {
      PushKeepsSane(segments, Fresh(next, config.compression), first, config.segmentBytes);
      TotalAppend(segments, [Fresh(next, config.compression)]);
      FlatAppend(contents, [Content(NO_FILES, [])]);
      FreshHolds(next, config.codec, config.compression, first);
      segments := segments + [Fresh(next, config.compression)];
      contents := contents + [Content(NO_FILES, [])];
      next := next + 1;
      assert gone + (Flat(old(contents)) + []) == gone + Flat(old(contents));
    }

    /** Gives up the oldest segment; its bytes are no longer counted if its files are removed. */
    method EvictOldest(removes: bool)
      requires Valid() && segments != []
      modifies this`segments, this`bytesOnDisk, this`evicted, this`contents, this`gone
      ensures Valid() && Keeps() && All() == old(All())
      ensures segments == old(segments)[1..] && old(segments)[0].Size() <= old(bytesOnDisk)
      ensures bytesOnDisk == old(bytesOnDisk) - (if removes then old(segments)[0].Size() else 0)
      ensures evicted == old(evicted) + (if removes then 1 else 0)
    {
      var oldest := segments[0];
      DropKeepsSane(segments, 1, first, next, config.segmentBytes);
      Moved(gone, contents);
      segments, contents, gone := segments[1..], contents[1..], gone + contents[0].records;
      if removes {
        bytesOnDisk := SaturatingSub(bytesOnDisk, oldest.Size());
        evicted := evicted + 1;
      }
    }

    /** Removes oldest segments; the removal numbered by `fault` fails. */
    method EnforceBudget(fault: Option<nat>) returns (ok: bool, removed: nat)
      requires Valid()
      modifies this`segments, this`bytesOnDisk, this`evicted, this`contents, this`gone
      ensures Valid() && Keeps() && All() == old(All())
      ensures evicted == old(evicted) + removed
      ensures BudgetEnforced(old(segments), old(bytesOnDisk), config.budget, fault, ok, removed, segments, bytesOnDisk)
    {
      if config.budget == 0 {
        return true, 0;
      }
      ok, removed := EvictUntilFits(fault);
    }

    /** One turn of the eviction loop, whose removal may fail. */
    method EvictNext(ghost was: seq<Segment>, ghost bytes: nat, removed: nat, fails: bool)
      requires Valid() && 0 < config.budget < bytesOnDisk && |segments| > 1
      requires Evicting(was, bytes, removed, segments, bytesOnDisk, config.budget)
      modifies this`segments, this`bytesOnDisk, this`evicted, this`contents, this`gone
      ensures Valid() && Keeps() && All() == old(All()) && |segments| < |old(segments)|
      ensures evicted == old(evicted) + (if fails then 0 else 1)
      ensures
        if fails then BudgetEnforced(was, bytes, config.budget, Some(removed), false, removed, segments, bytesOnDisk)
        else Evicting(was, bytes, removed + 1, segments, bytesOnDisk, config.budget)
    {
      EvictingFails(was, bytes, removed, segments, bytesOnDisk, config.budget);
      EvictingStep(was, bytes, removed, segments, bytesOnDisk, config.budget);
      EvictOldest(!fails);
    }

    method EvictUntilFits(fault: Option<nat>) returns (ok: bool, removed: nat)
      requires Valid() && config.budget > 0
      modifies this`segments, this`bytesOnDisk, this`evicted, this`contents, this`gone
      ensures Valid() && Keeps() && All() == old(All())
      ensures evicted == old(evicted) + removed
      ensures BudgetEnforced(old(segments), old(bytesOnDisk), config.budget, fault, ok, removed, segments, bytesOnDisk)
    {
      ghost var was, bytes := segments, bytesOnDisk;
      removed := 0;
      while bytesOnDisk > config.budget && |segments| > 1
        invariant Valid() && Keeps() && All() == old(All())
        invariant Evicting(was, bytes, removed, segments, bytesOnDisk, config.budget)
        invariant evicted == old(evicted) + removed && (fault.Some? ==> fault.value >= removed)
        decreases |segments|
      {
        var fails := fault.Some? && fault.value == removed;
        EvictNext(was, bytes, removed, fails);
        if fails {
          return false, removed;
        }
        removed := removed + 1;
      }
      EvictingEnds(was, bytes, removed, segments, bytesOnDisk, config.budget, fault);
      ok := true;
    }

    /** Replaces the files of the active segment and leaves the counts alone. */
    method LeavePartial(files: Files)
      requires Valid() && segments != []
      modifies this`segments
      ensures Valid()
      ensures segments == old(segments)[..|old(segments)| - 1] + [old(segments)[|old(segments)| - 1].(files := files)]
    {
      var active := segments[|segments| - 1];
      ReplaceKeepsSane(segments, active.(files := files), first, next, config.segmentBytes);
      ReplaceTotal(segments, active.(files := files));
      segments := segments[..|segments| - 1] + [active.(files := files)];
    }

    /** Writes a record and its index line to the active segment. */
    method WriteRecord(r: Record, faults: Faults) returns (ok: bool)
      requires Valid() && segments != [] && !Opens(segments, config, |r.stored|)
      requires IsSound(config.codec, config.compression, r) && r.stored != []
      modifies this`segments, this`bytesOnDisk, this`contents
      ensures Valid() && (ok <==> faults.Writes())
      ensures !ok ==>
        && segments == Torn(old(segments), config, r, faults) && contents == old(contents)
        && All() == old(All()) && bytesOnDisk == old(bytesOnDisk)
      ensures ok ==> contents == Noted(old(segments), old(contents), config, r)
      ensures ok ==>
        && segments == Placed(old(segments), next, config, r)
        && bytesOnDisk == old(bytesOnDisk) + Total(segments) - Total(old(segments))
        && All() == old(All()) + [r] && (old(Faithful()) ==> Faithful())
    {
      var active := segments[|segments| - 1];
      var line := IndexBytes(active, config, r);
      if faults.data.Some? {
        LeavePartial(Files(AfterFailure(active.files.data, r.stored, faults.data.value), active.files.index));
        return false;
      }
      if faults.index.Some? {
        LeavePartial(Files(Some(active.files.Held() + r.stored),
                           AfterFailure(active.files.index, line, faults.index.value)));
        return false;
      }
      CommitRecord(r, line);
      ok := true;
    }

    /** Counts a record that has reached both files. */
    method CommitRecord(r: Record, line: seq<Byte>)
      requires Valid() && segments != [] && !Opens(segments, config, |r.stored|)
      requires IsSound(config.codec, config.compression, r) && r.stored != []
      requires line == IndexBytes(segments[|segments| - 1], config, r)
      modifies this`segments, this`bytesOnDisk, this`contents
      ensures Valid() && segments == Placed(old(segments), next, config, r)
      ensures bytesOnDisk == old(bytesOnDisk) + Total(segments) - Total(old(segments))
      ensures All() == old(All()) + [r] && (old(Faithful()) ==> Faithful())
      ensures contents == Noted(old(segments), old(contents), config, r)
    {
      Commits(segments, contents, gone, first, next, config, r);
      ghost var placed := Placed(segments, next, config, r);
      var active := segments[|segments| - 1];
      contents := Noted(segments, contents, config, r);
      segments := segments[..|segments| - 1] + [Grown(active, config, r)];
      assert segments == placed;
      bytesOnDisk := bytesOnDisk + |r.stored| + |line|;
    }

    /** Starts a segment if the record needs one. */
    method OpenFor(r: Record)
      requires Valid()
      modifies this`next, this`segments, this`contents
      ensures Valid() && (old(Faithful()) ==> Faithful()) && All() == old(All())
      ensures segments == Opened(old(segments), old(next), config, |r.stored|) && !Opens(segments, config, |r.stored|)
      ensures Placed(segments, next, config, r) == Placed(old(segments), old(next), config, r)
      ensures Noted(segments, contents, config, r) == Noted(old(segments), old(contents), config, r)
      ensures Total(segments) == Total(old(segments))
    {
      if Opens(segments, config, |r.stored|) {
        OpenedIsPlaced(segments, contents, next, config, r);
        StartSegment();
      }
    }

    /** Writes a record to the active segment or to a new one. */
    method PlaceRecord(r: Record, faults: Faults) returns (ok: bool)
      requires Valid() && IsSound(config.codec, config.compression, r) && r.stored != []
      modifies this`next, this`segments, this`bytesOnDisk, this`contents
      ensures Valid() && (ok <==> faults.Writes())
      ensures !ok ==>
        && segments == Torn(Opened(old(segments), old(next), config, |r.stored|), config, r, faults)
        && All() == old(All()) && bytesOnDisk == old(bytesOnDisk)
      ensures ok ==>
        && segments == Placed(old(segments), old(next), config, r)
        && bytesOnDisk == old(bytesOnDisk) + Total(segments) - Total(old(segments))
        && contents == Noted(old(segments), old(contents), config, r)
        && All() == old(All()) + [r] && (old(Faithful()) ==> Faithful())
    {
      OpenFor(r);
      ok := WriteRecord(r, faults);
    }

    /** Places a record and enforces the budget; the ghost results are the state in between. */
    method AppendRecord(r: Record, faults: Faults)
      returns (ok: bool, removed: nat, ghost placed: seq<Segment>, ghost bytes: nat)
      requires Valid() && IsSound(config.codec, config.compression, r) && r.stored != []
      modifies this
      ensures Valid()
      ensures ok ==> config.budget == 0 || bytesOnDisk <= config.budget || |segments| <= 1
      ensures ok && old(bytesOnDisk == Total(segments)) ==> bytesOnDisk == Total(segments)
      ensures !faults.Writes() ==>
        && !ok && segments == Torn(Opened(old(segments), old(next), config, |r.stored|), config, r, faults)
        && All() == old(All()) && bytesOnDisk == old(bytesOnDisk)
      ensures faults.Writes() ==> All() == old(All()) + [r] && Keeps()
      ensures faults.Writes() ==>
        && placed == Placed(old(segments), old(next), config, r)
        && bytes == old(bytesOnDisk) + Total(placed) - Total(old(segments))
        && BudgetEnforced(placed, bytes, config.budget, faults.removal, ok, removed, segments, bytesOnDisk)
        && evicted == old(evicted) + removed
    {
      ghost var first, before, noting, number := first, segments, contents, next;
      ok := PlaceRecord(r, faults);
      placed, bytes, removed := segments, bytesOnDisk, 0;
      if !ok {
        return;
      }
      if AllBegun(before, noting, first) {
        PlacedBegun(before, noting, number, config, r, first);
      }
      ok, removed := EnforceBudget(faults.removal);
      ExcessIsLeast(placed, bytes, config.budget);
      SplitTotal(placed, removed);
    }

    /** Appends one session line. */
    method Append(line: seq<Byte>, id: nat, faults: Faults) returns (ok: bool)
      requires Valid() && id <= MAX_USIZE
      modifies this
      ensures Valid()
      ensures ok ==> config.budget == 0 || bytesOnDisk <= config.budget || |segments| <= 1
      ensures ok && old(bytesOnDisk == Total(segments)) ==> bytesOnDisk == Total(segments)
      ensures
        var stored := config.codec.EncodeRecord(line, config.compression);
        && (stored.None? || !faults.Writes() ==> !ok && All() == old(All()) && bytesOnDisk == old(bytesOnDisk))
        && (stored.Some? && faults.Writes() ==> All() == old(All()) + [Record(line, id, stored.value)])
        && (stored.None? || faults.Writes() ==> Keeps())
    {
      var stored := config.codec.EncodeRecord(line, config.compression);
      if stored.None? {
        return false;
      }
      var removed; ghost var placed, bytes;
      ok, removed, placed, bytes := AppendRecord(Record(line, id, stored.value), faults);
    }
  }

  /** Takes over the segments found on disk and enforces the budget on them. */
  method TakeOver(config: Config, found: seq<Segment>, fault: Option<nat>) returns (log: Log, ok: bool, removed: nat)
    requires config.codec.Lawful() && AsOnDisk(found)
    ensures fresh(log) && log.Valid() && log.Faithful() && log.config == config && log.All() == []
    ensures log.evicted == removed
    ensures BudgetEnforced(found, Total(found), config.budget, fault, ok, removed, log.segments, log.bytesOnDisk)
    ensures ok ==> log.bytesOnDisk == Total(log.segments)
    ensures ok ==> config.budget == 0 || log.bytesOnDisk <= config.budget || |log.segments| <= 1
  {
    log := new Log(config, found);
    ok, removed := log.EnforceBudget(fault);
    ExcessIsLeast(found, Total(found), config.budget);
    SplitTotal(found, removed);
  }

  /** What writing a record to the active segment does to counts and contents. */
  lemma Commits(segments: seq<Segment>, contents: seq<Content>, gone: seq<Record>, first: nat, next: nat,
                config: Config, r: Record)
    requires Sane(segments, first, next, config.segmentBytes) && |contents| == |segments|
    requires segments != [] && !Opens(segments, config, |r.stored|) && r.stored != []
    requires IsSound(config.codec, config.compression, r)
    ensures
      var placed, noted := Placed(segments, next, config, r), Noted(segments, contents, config, r);
      && Sane(placed, first, next, config.segmentBytes) && |noted| == |placed|
      && Total(placed) == Total(segments) + |r.stored| + |IndexBytes(segments[|segments| - 1], config, r)|
      && gone + Flat(noted) == gone + Flat(contents) + [r]
      && (AllHold(segments, contents, config.codec, first) ==> AllHold(placed, noted, config.codec, first))
  {
    PlacedKeepsSane(segments, first, next, config, r);
    PlacedTotal(segments, next, config, r);
    NotedAdds(segments, contents, config, r);
    Regroup(gone, Flat(contents), [r]);
    if AllHold(segments, contents, config.codec, first) {
      PlacedHolds(segments, contents, next, config, first, r);
    }
  }

  /** Segments found on disk hold what they hold, and no record of the run. */
  ghost function Untouched(found: seq<Segment>): seq<Content> {
    seq(|found|, i requires 0 <= i < |found| => Content(found[i].files, []))
  }

  lemma TakenOver(found: seq<Segment>, config: Config)
    requires AsOnDisk(found)
    ensures
      var first := NextIndex(found);
      && AllHold(found, Untouched(found), config.codec, first) && Flat(Untouched(found)) == []
      && Sane(found, first, first, config.segmentBytes)
      && (found == [] ==> AllBegun(found, Untouched(found), first))
  {
    NothingWritten(Untouched(found));
    LastIsGreatest(found);
  }

  lemma LastIsGreatest(found: seq<Segment>)
    requires AsOnDisk(found)
    ensures forall i :: 0 <= i < |found| ==> found[i].index < NextIndex(found)
  {
  }

  lemma {:induction false} NothingWritten(contents: seq<Content>)
    requires forall i :: 0 <= i < |contents| ==> contents[i].records == []
    ensures Flat(contents) == []
    decreases |contents|
  {
    if contents != [] {
      NothingWritten(contents[1..]);
    }
  }

  lemma TotalOfNext(segments: seq<Segment>, k: nat)
    requires k < |segments|
    ensures Total(segments[..k + 1]) == Total(segments[..k]) + segments[k].Size()
  {
    assert segments[..k + 1] == segments[..k] + [segments[k]];
    TotalAppend(segments[..k], [segments[k]]);
  }

  lemma Moved(gone: seq<Record>, contents: seq<Content>)
    requires contents != []
    ensures gone + Flat(contents) == gone + contents[0].records + Flat(contents[1..])
  {
  }

  lemma ReplaceTotal(segments: seq<Segment>, s: Segment)
    requires segments != [] && s.Size() == segments[|segments| - 1].Size()
    ensures Total(segments[..|segments| - 1] + [s]) == Total(segments)
  {
    var before, last := segments[..|segments| - 1], segments[|segments| - 1];
    TotalAppend(before, [s]);
    TotalAppend(before, [last]);
    assert segments == before + [last];
  }

  lemma SplitTotal(segments: seq<Segment>, n: nat)
    requires n <= |segments|
    ensures Total(segments) == Total(segments[..n]) + Total(segments[n..])
  {
    TotalAppend(segments[..n], segments[n..]);
    assert segments == segments[..n] + segments[n..];
  }

  lemma ReplacedLast<T>(s: seq<T>, last: T)
    ensures (s + [last])[..|s + [last]| - 1] == s && (s + [last])[|s + [last]| - 1] == last
  {
  }

  /** An empty segment of its own compression takes any record. */
  lemma FreshIsOpen(segments: seq<Segment>, next: nat, config: Config, size: nat)
    ensures !Opens(segments + [Fresh(next, config.compression)], config, size)
  {
  }

  /** Starting a segment and then writing to it is placing the record. */
  lemma OpenedIsPlaced(segments: seq<Segment>, contents: seq<Content>, next: nat, config: Config, r: Record)
    requires Opens(segments, config, |r.stored|) && |contents| == |segments|
    ensures
      var extended := segments + [Fresh(next, config.compression)];
      && !Opens(extended, config, |r.stored|)
      && Placed(extended, next + 1, config, r) == Placed(segments, next, config, r)
      && Noted(extended, contents + [Content(NO_FILES, [])], config, r) == Noted(segments, contents, config, r)
      && Total(extended) == Total(segments)
  {
    var s, c := Fresh(next, config.compression), Content(NO_FILES, []);
    FreshIsOpen(segments, next, config, |r.stored|);
    ReplacedLast(segments, s);
    ReplacedLast(contents, c);
    Split([], [r]);
    TotalAppend(segments, [s]);
  }

  // ---------------------------------------------------------------------------
  // Reading the live records back

  /** The part of a segment's files that is counted. */
  function CountedFiles(s: Segment): Files {
    Files(if s.files.data.None? then None else Some(Prefix(s.files.data.value, s.bytes)),
          if s.files.index.None? then None else Some(Prefix(s.files.index.value, s.indexBytes)))
  }

  type Reading = Segment -> Option<Contents>

  function ReadingOf(codec: Codec): Reading {
    (s: Segment) => ContentsOf(codec, s.compression, CountedFiles(s))
  }

  const NO_CONTENTS := Contents([], 0)

  /** What is read before, then the rest, unless that fails. */
  function After(so: Contents, rest: Option<Contents>): Option<Contents> {
    if rest.None? then None else Some(Together(so, rest.value))
  }

  function Snapshot(reading: Reading, segments: seq<Segment>): Option<Contents> {
    if segments == [] then Some(NO_CONTENTS)
    else
      var one := reading(segments[0]);
      if one.None? then None else After(one.value, Snapshot(reading, segments[1..]))
  }

  lemma AfterMore(so: Contents, one: Contents, rest: Option<Contents>)
    ensures After(so, After(one, rest)) == After(Together(so, one), rest)
  {
    if rest.Some? {
      assert so.body + (one.body + rest.value.body) == so.body + one.body + rest.value.body;
    }
  }

  lemma AfterNothing(so: Contents, rest: Option<Contents>)
    ensures After(NO_CONTENTS, rest) == rest && After(so, Some(NO_CONTENTS)) == Some(so)
  {
    assert so.body + [] == so.body;
    if rest.Some? {
      assert [] + rest.value.body == rest.value.body;
    }
  }

  method ReadOne(codec: Codec, s: Segment) returns (contents: Option<Contents>)
    ensures contents == ReadingOf(codec)(s)
  {
    contents := ReadSegment(codec, s.compression, CountedFiles(s));
  }

  /** What is still to come when `so` has been read from the first `i` segments. */
  ghost function Pending(reading: Reading, segments: seq<Segment>, i: nat, so: Contents): Option<Contents>
    requires i <= |segments|
  {
    After(so, Snapshot(reading, segments[i..]))
  }

  lemma PendingStep(reading: Reading, segments: seq<Segment>, i: nat, so: Contents)
    requires i < |segments|
    ensures reading(segments[i]).None? ==> Pending(reading, segments, i, so) == None
    ensures reading(segments[i]).Some? ==>
      Pending(reading, segments, i, so) == Pending(reading, segments, i + 1, Together(so, reading(segments[i]).value))
  {
    assert segments[i..][0] == segments[i] && segments[i..][1..] == segments[i + 1..];
    if reading(segments[i]).Some? {
      AfterMore(so, reading(segments[i]).value, Snapshot(reading, segments[i + 1..]));
    }
  }

  lemma PendingEnds(reading: Reading, segments: seq<Segment>, so: Contents)
    ensures Pending(reading, segments, 0, NO_CONTENTS) == Snapshot(reading, segments)
    ensures Pending(reading, segments, |segments|, so) == Some(so)
  {
    assert segments[0..] == segments;
    AfterNothing(so, Snapshot(reading, segments));
  }

  method ReadSnapshot(codec: Codec, segments: seq<Segment>) returns (contents: Option<Contents>)
    ensures contents == Snapshot(ReadingOf(codec), segments)
  {
    ghost var reading := ReadingOf(codec);
    var so := NO_CONTENTS;
    PendingEnds(reading, segments, so);
    for i := 0 to |segments|
      invariant Snapshot(reading, segments) == Pending(reading, segments, i, so)
    {
      var one := ReadOne(codec, segments[i]);
      PendingStep(reading, segments, i, so);
      if one.None? {
        return None;
      }
      so := Together(so, one.value);
    }
    PendingEnds(reading, segments, so);
    contents := Some(so);
  }

  lemma {:induction false} BodiesAppend(a: seq<Record>, b: seq<Record>)
    ensures Bodies(a + b) == Bodies(a) + Bodies(b)
    decreases |a|
  {
    if a == [] {
      assert a + b == b;
    } else {
      assert (a + b)[1..] == a[1..] + b;
      BodiesAppend(a[1..], b);
      assert a[0].line + [LF] + (Bodies(a[1..]) + Bodies(b)) == a[0].line + [LF] + Bodies(a[1..]) + Bodies(b);
    }
  }

  /** The counted files of the segment hold exactly these records, whatever runs wrote them. */
  predicate WrittenBy(codec: Codec, s: Segment, records: seq<Record>) {
    && s.files == WriteAll(IndexingOf(codec, s.compression), NO_FILES, records) && s.Counted()
    && AllSound(codec, s.compression, records) && records != []
  }

  lemma OwnSegment(s: Segment, c: Content, codec: Codec, first: nat)
    requires Holds(s, c, codec, first) && s.index >= first && c.records != []
    ensures WrittenBy(codec, s, c.records)
  {
  }

  /** A segment that an earlier run has written goes on as if there had been one run. */
  lemma FoundSegment(s: Segment, c: Content, codec: Codec, first: nat, earlier: seq<Record>)
    requires Holds(s, c, codec, first) && AllSound(codec, s.compression, earlier) && earlier + c.records != []
    requires c.base == WriteAll(IndexingOf(codec, s.compression), NO_FILES, earlier)
    ensures WrittenBy(codec, s, earlier + c.records)
  {
    WriteAllAppend(IndexingOf(codec, s.compression), NO_FILES, earlier, c.records);
  }

  lemma AllIsCounted(s: Segment)
    requires s.Counted()
    ensures CountedFiles(s) == s.files
  {
    assert s.files.Held()[..|s.files.Held()|] == s.files.Held();
    assert s.files.Indexed()[..|s.files.Indexed()|] == s.files.Indexed();
  }

  lemma SegmentIsReadBack(s: Segment, records: seq<Record>, codec: Codec)
    requires codec.Lawful() && WrittenBy(codec, s, records) && s.bytes <= MAX_USIZE
    ensures ReadingOf(codec)(s) == Some(Contents(Bodies(records), 0))
  {
    WrittenFiles(IndexingOf(codec, s.compression), NO_FILES, records);
    WrittenIsReadBack(codec, s.compression, records);
    AllIsCounted(s);
  }

  /** Whatever a segment held that was found on disk: it is read on from there. */
  lemma FoundSegmentReadsOn(s: Segment, c: Content, codec: Codec, first: nat, text: string)
    requires codec.Lawful() && Holds(s, c, codec, first) && c.records != [] && s.bytes <= MAX_USIZE
    requires Decode(c.base.Indexed()) == Some(text) && IsWhole(text)
    ensures ReadingOf(codec)(s) ==
      Some(Together(Recovered(RecoveryOf(codec, s.compression, s.files.Held()), Lines(text)),
                    Contents(Bodies(c.records), 0)))
  {
    WrittenFiles(IndexingOf(codec, s.compression), c.base, c.records);
    WholeIndexGoesOn(codec, s.compression, c.base, text, c.records);
    AllIsCounted(s);
  }

  function Joined(records: seq<seq<Record>>): seq<Record> {
    if records == [] then [] else records[0] + Joined(records[1..])
  }

  /** A snapshot gives exactly the records of the live segments, in order, whatever runs wrote them. */
  lemma {:induction false} LiveRecordsAreReadBack(segments: seq<Segment>, records: seq<seq<Record>>, codec: Codec)
    requires codec.Lawful() && |records| == |segments|
    requires forall i :: 0 <= i < |segments| ==>
      WrittenBy(codec, segments[i], records[i]) && segments[i].bytes <= MAX_USIZE
    ensures Snapshot(ReadingOf(codec), segments) == Some(Contents(Bodies(Joined(records)), 0))
    decreases |segments|
  {
    if segments != [] {
      SegmentIsReadBack(segments[0], records[0], codec);
      LiveRecordsAreReadBack(segments[1..], records[1..], codec);
      BodiesAppend(records[0], Joined(records[1..]));
    }
  }
}
