/**
 What can be read back after whole runs of the spill log, and after a write that failed.
 */
module SpillRun {
  import opened Text
  import opened Bytes
  import opened Tokens
  import opened SpillFiles
  import opened SpillLog

  // ---------------------------------------------------------------------------
  // After runs whose writes succeed

  function RecordsOf(contents: seq<Content>): seq<seq<Record>> {
    seq(|contents|, i requires 0 <= i < |contents| => contents[i].records)
  }

  lemma {:induction false} JoinedIsFlat(contents: seq<Content>)
    ensures Joined(RecordsOf(contents)) == Flat(contents)
    decreases |contents|
  {
    if contents != [] {
      JoinedIsFlat(contents[1..]);
      assert RecordsOf(contents)[1..] == RecordsOf(contents[1..]);
    }
  }

  /** Offsets into every data file fit a machine word. */
  predicate AllFitWord(segments: seq<Segment>) {
    forall i :: 0 <= i < |segments| ==> segments[i].bytes <= MAX_USIZE
  }

  /** If every live segment was begun in the run and has a record, a snapshot gives the live records. */
  lemma OwnRecordsAreReadBack(segments: seq<Segment>, contents: seq<Content>, codec: Codec, first: nat)
    requires codec.Lawful() && AllHold(segments, contents, codec, first) && AllBegun(segments, contents, first)
    requires AllFitWord(segments)
    ensures Snapshot(ReadingOf(codec), segments) == Some(Contents(Bodies(Flat(contents)), 0))
  {
    var records := RecordsOf(contents);
    forall i | 0 <= i < |segments|
      ensures WrittenBy(codec, segments[i], records[i])
    {
      OwnSegment(segments[i], contents[i], codec, first);
    }
    LiveRecordsAreReadBack(segments, records, codec);
    JoinedIsFlat(contents);
  }

  /** The records and one for the line, if that can be encoded. */
  function Extended(config: Config, records: seq<Record>, line: seq<Byte>, id: nat): seq<Record> {
    var stored := config.codec.EncodeRecord(line, config.compression);
    if stored.None? then records else records + [Record(line, id, stored.value)]
  }

  /** The records of the lines that can be encoded. */
  function Encoded(config: Config, lines: seq<(seq<Byte>, nat)>): seq<Record> {
    if lines == [] then []
    else
      var (line, id) := lines[|lines| - 1];
      Extended(config, Encoded(config, lines[..|lines| - 1]), line, id)
  }

  lemma EncodedNext(config: Config, lines: seq<(seq<Byte>, nat)>, i: nat)
    requires i < |lines|
    ensures Encoded(config, lines[..i + 1]) == Extended(config, Encoded(config, lines[..i]), lines[i].0, lines[i].1)
  {
    assert lines[..i + 1][..i] == lines[..i];
  }

  ghost predicate IsReadBack(log: Log)
    reads log
  {
    AllFitWord(log.segments) ==>
      Snapshot(ReadingOf(log.config.codec), log.segments) == Some(Contents(Bodies(Flat(log.contents)), 0))
  }

  lemma FittingRecordsAreReadBack(segments: seq<Segment>, contents: seq<Content>, codec: Codec, first: nat)
    requires codec.Lawful() && AllHold(segments, contents, codec, first) && AllBegun(segments, contents, first)
    ensures AllFitWord(segments) ==> Snapshot(ReadingOf(codec), segments) == Some(Contents(Bodies(Flat(contents)), 0))
  {
    if AllFitWord(segments) {
      OwnRecordsAreReadBack(segments, contents, codec, first);
    }
  }

  /** An append whose writes succeed, to segments that the run has begun. */
  method AppendNext(log: Log, line: seq<Byte>, id: nat, removal: Option<nat>)
    requires log.Valid() && log.Faithful() && log.Begun() && id <= MAX_USIZE
    modifies log
    ensures log.Valid() && log.Faithful() && log.Begun()
    ensures log.All() == Extended(log.config, old(log.All()), line, id)
  {
    var ok := log.Append(line, id, Faults(None, None, removal));
  }

  /**
   A run over an empty directory in which every write succeeds and any removal may fail:
   each record is gone with its segment or live, and exactly the live ones are read back.
   */
  method AppendAll(config: Config, lines: seq<(seq<Byte>, nat)>, removals: seq<Option<nat>>) returns (log: Log)
    requires config.codec.Lawful() && |removals| == |lines|
    requires forall i :: 0 <= i < |lines| ==> lines[i].1 <= MAX_USIZE
    ensures fresh(log) && log.Valid() && log.config == config
    ensures log.gone + Flat(log.contents) == Encoded(config, lines)
    ensures IsReadBack(log)
  {
    log := new Log(config, []);
    for i := 0 to |lines|
      invariant fresh(log) && log.Valid() && log.Faithful() && log.Begun() && log.config == config
      invariant log.All() == Encoded(config, lines[..i])
    {
      EncodedNext(config, lines, i);
      AppendNext(log, lines[i].0, lines[i].1, removals[i]);
    }
    assert lines[..|lines|] == lines;
    FittingRecordsAreReadBack(log.segments, log.contents, config.codec, log.first);
  }

  // ---------------------------------------------------------------------------
  // After a write that fails

  /** A snapshot fails exactly if one of its segments cannot be read. */
  lemma {:induction false} SnapshotFailsExactly(reading: Reading, segments: seq<Segment>)
    ensures Snapshot(reading, segments).None? <==> exists i :: 0 <= i < |segments| && reading(segments[i]).None?
    decreases |segments|
  {
    if segments != [] {
      SnapshotFailsExactly(reading, segments[1..]);
      assert segments == [segments[0]] + segments[1..];
    }
  }

  /** A segment whose data file could not be created when it was begun makes every snapshot fail. */
  lemma UnopenedSegmentFailsSnapshots(segments: seq<Segment>, next: nat, config: Config, r: Record, faults: Faults)
    requires Opens(segments, config, |r.stored|) && faults.data == Some(NotOpened)
    ensures Snapshot(ReadingOf(config.codec), Torn(Opened(segments, next, config, |r.stored|), config, r, faults)).None?
  {
    var torn := Torn(Opened(segments, next, config, |r.stored|), config, r, faults);
    var last := torn[|torn| - 1];
    assert last.files.data.None? && ReadingOf(config.codec)(last).None?;
    SnapshotFailsExactly(ReadingOf(config.codec), torn);
  }

  /** The bytes of a line and the line feed behind it, selected by the length of the line. */
  lemma SelectedAt(before: seq<Byte>, found: seq<Byte>, line: seq<Byte>)
    requires |found| == |line| + 1
    ensures
      var data, end := before + found, |before| + |line|;
      data[|before|..end] == line && data[end] == LF <==> found == line + [LF]
  {
    var data, end := before + found, |before| + |line|;
    assert data[|before|..end] == found[..|line|] && data[end] == found[|line|];
    assert found == found[..|line|] + [found[|line|]];
    assert (line + [LF])[..|line|] == line && (line + [LF])[|line|] == LF;
  }

  /** What the reader makes of an uncompressed record with a byte behind it. */
  lemma RecoverPlain(codec: Codec, data: seq<Byte>, line: string, entry: Entry)
    requires ParseIndexEntry(line) == Some(entry) && entry.offset + entry.length < |data| <= MAX_USIZE
    ensures
      var end := entry.offset + entry.length;
      var found := data[entry.offset..end];
      Recover(codec, Plain, data, line) ==
        if data[end] == LF && codec.crc(found) == entry.crc then Some(found) else None
  {
  }

  /** What a stale offset selects is the record exactly if the bytes there are the record's own. */
  lemma StaleOffset(codec: Codec, before: seq<Byte>, found: seq<Byte>, r: Record)
    requires IsSound(codec, Plain, r) && |found| == |r.stored| && |before| + |found| <= MAX_USIZE
    ensures Recover(codec, Plain, before + found, IndexLine(codec, r, Plain, |before|)) == Some(r.line)
       <==> found == r.stored
  {
    IndexLineReads(codec, r, Plain, |before|);
    RecoverPlain(codec, before + found, IndexLine(codec, r, Plain, |before|),
                 Entry(|before|, |r.line|, codec.crc(r.line)));
    SelectedAt(before, found, r.line);
  }

  lemma OnlyLastIsLineFeed(line: seq<Byte>, i: nat)
    requires LF !in line && i <= |line|
    ensures (line + [LF])[i] == LF <==> i == |line|
  {
    if i < |line| {
      assert (line + [LF])[i] == line[i] && line[i] in line;
    }
  }

  /** Bytes left over before a line hide it, unless they are the same line. */
  lemma LeftoverHides(left: seq<Byte>, n: nat, torn: seq<Byte>, line: seq<Byte>)
    requires LF !in torn && LF !in line && n <= |torn| + 1 && left == (torn + [LF])[..n]
    ensures (left + (line + [LF]))[..|line| + 1] == line + [LF] <==> left == [] || left == line + [LF]
  {
    var stored := line + [LF];
    var found := (left + stored)[..|stored|];
    if left == [] {
      assert left + stored == stored;
    } else if |left| <= |line| {
      assert found[|line|] == stored[|line| - |left|];
      OnlyLastIsLineFeed(line, |line| - |left|);
    } else {
      assert found[|line|] == (torn + [LF])[|line|];
      OnlyLastIsLineFeed(torn, |line|);
      assert |left| == |stored| ==> found == left;
    }
  }

  /** What the counted data of a segment is when a record follows bytes that were not counted. */
  lemma CountedAfterTorn(s: Segment, left: seq<Byte>, files: Files, config: Config, r: Record)
    requires s.bytes == |s.files.Held()| && files.Held() == s.files.Held() + left
    ensures CountedFiles(Grown(s.(files := files), config, r)).Held()
         == s.files.Held() + (left + r.stored)[..|r.stored|]
  {
    Regroup(s.files.Held(), left, r.stored);
  }

  /**
   After a data write to an uncompressed segment failed, the next record is found again at
   its offset exactly if the failed write left nothing behind, so that the counts are still
   those of the files, or if it left that very record.
   */
  lemma RecordAfterTornWrite(s: Segment, config: Config, r: Record, n: nat, next: Record)
    requires s.Counted() && s.bytes + |next.stored| <= MAX_USIZE
    requires IsSound(config.codec, Plain, r) && IsSound(config.codec, Plain, next) && LF !in r.line && LF !in next.line
    ensures
      var faults := Faults(Some(Cut(n)), None, None);
      var torn := s.(files := TornFiles(s.files, r.stored, IndexBytes(s, config, r), faults));
      var data := CountedFiles(Grown(torn, config, next)).Held();
      Recover(config.codec, Plain, data, IndexLine(config.codec, next, Plain, s.bytes)) == Some(next.line) <==>
      torn.Counted() || Prefix(r.stored, n) == next.stored
  {
    var left := Prefix(r.stored, n);
    var files := TornFiles(s.files, r.stored, IndexBytes(s, config, r), Faults(Some(Cut(n)), None, None));
    CountedAfterTorn(s, left, files, config, next);
    StaleOffset(config.codec, s.files.Held(), (left + next.stored)[..|next.stored|], next);
    LeftoverHides(left, |left|, r.line, next.line);
  }
}
