/**
 Files of the trace spill log, and the reader that puts their records together again.
 */
module SpillFiles {
  import opened Text
  import opened Bytes
  import opened Utf8
  import opened Tokens
  import opened Search

  type Word32 = n: nat | n < 0x1_0000_0000

  datatype Compression = Plain | Zstd(level: int)

  /** The compression and checksum libraries. */
  datatype Codec = Codec(
    compress: (seq<Byte>, int) -> Option<seq<Byte>>,
    decompress: seq<Byte> -> Option<seq<Byte>>,
    crc: seq<Byte> -> Word32)
  {
    /** Decompression undoes compression, and no compressed frame is empty. */
    ghost predicate Lawful() {
      forall b, level :: compress(b, level).Some? ==>
        compress(b, level).value != [] && decompress(compress(b, level).value) == Some(b)
    }

    function EncodeRecord(line: seq<Byte>, compression: Compression): Option<seq<Byte>> {
      match compression
      case Plain => Some(line + [LF])
      case Zstd(level) => compress(line + [LF], level)
    }

    function DecodeRecord(record: seq<Byte>, compression: Compression): Option<seq<Byte>> {
      match compression
      case Plain => Some(record)
      case Zstd(_) =>
        var decoded := decompress(record);
        if decoded.None? || decoded.value == [] || decoded.value[|decoded.value| - 1] != LF then None
        else Some(decoded.value[..|decoded.value| - 1])
    }
  }

  // ---------------------------------------------------------------------------
  // Writing

  /** A session line, its identifier and the bytes stored for it. */
  datatype Record = Record(line: seq<Byte>, id: nat, stored: seq<Byte>)

  function IndexedLength(r: Record, compression: Compression): nat {
    if compression.Plain? then |r.line| else |r.stored|
  }

  function IndexLine(codec: Codec, r: Record, compression: Compression, offset: nat): string {
    Decimal(offset) + " "
    + (Decimal(IndexedLength(r, compression)) + " " + (Decimal(r.id) + " " + Hex(codec.crc(r.line), 8)))
  }

  /** How a record at an offset is indexed. */
  type Indexing = (Record, nat) -> string

  function IndexingOf(codec: Codec, compression: Compression): Indexing {
    (r, offset: nat) => IndexLine(codec, r, compression, offset)
  }

  /** A data file and its index file, either of which may be missing. */
  datatype Files = Files(data: Option<seq<Byte>>, index: Option<seq<Byte>>)
  {
    function Held(): seq<Byte> { if data.Some? then data.value else [] }

    function Indexed(): seq<Byte> { if index.Some? then index.value else [] }
  }

  const NO_FILES := Files(None, None)

  function Write(indexing: Indexing, files: Files, r: Record): Files {
    Files(Some(files.Held() + r.stored), Some(files.Indexed() + Encode(indexing(r, |files.Held()|) + "\n")))
  }

  function WriteAll(indexing: Indexing, files: Files, records: seq<Record>): Files {
    if records == [] then files
    else Write(indexing, WriteAll(indexing, files, records[..|records| - 1]), records[|records| - 1])
  }

  // ---------------------------------------------------------------------------
  // Reading

  datatype Entry = Entry(offset: nat, length: nat, crc: nat)

  function ParseIndexEntry(line: string): Option<Entry> {
    var parts := Words(line, IsWhitespace);
    if |parts| < 4 then None
    else
      var offset := ParseUpTo(parts[0], MAX_USIZE);
      var length := ParseUpTo(parts[1], MAX_USIZE);
      var id := ParseUpTo(parts[2], MAX_USIZE);
      var crc := ParseHex(parts[3], 0xFFFF_FFFF);
      if offset.None? || length.None? || id.None? || crc.None? then None
      else Some(Entry(offset.value, length.value, crc.value))
  }

  function WithoutReturn(line: string): string {
    if line != [] && line[|line| - 1] == '\r' then line[..|line| - 1] else line
  }

  /** `str::lines`: the pieces before line feeds, without a carriage return at their end. */
  function Lines(text: string): seq<string>
    decreases |text|
  {
    var end := Find(text, IsLineFeed);
    if text == [] then []
    else if end == |text| then [text]
    else [WithoutReturn(text[..end])] + Lines(text[end + 1..])
  }

  predicate InBounds(data: seq<Byte>, end: nat, compression: Compression) {
    end <= |data| && (compression.Plain? && end < |data| ==> data[end] == LF)
  }

  /** The line an index entry leads to, unless something does not fit. */
  function Recover(codec: Codec, compression: Compression, data: seq<Byte>, line: string): Option<seq<Byte>> {
    var entry := ParseIndexEntry(line);
    if entry.None? then None
    else
      var sum := entry.value.offset + entry.value.length;
      var end := if sum > MAX_USIZE then MAX_USIZE else sum;
      if !InBounds(data, end, compression) || entry.value.offset > end then None
      else
        var payload := codec.DecodeRecord(data[entry.value.offset..end], compression);
        if payload.None? || codec.crc(payload.value) != entry.value.crc then None else payload
  }

  type Recovery = string -> Option<seq<Byte>>

  function RecoveryOf(codec: Codec, compression: Compression, data: seq<Byte>): Recovery {
    line => Recover(codec, compression, data, line)
  }

  datatype Contents = Contents(body: seq<Byte>, corrupt: nat)

  function Recovered(recovery: Recovery, lines: seq<string>): Contents {
    if lines == [] then Contents([], 0)
    else
      var first := recovery(lines[0]);
      var rest := Recovered(recovery, lines[1..]);
      if first.Some? then Contents(first.value + [LF] + rest.body, rest.corrupt)
      else Contents(rest.body, rest.corrupt + 1)
  }

  method RecoverLines(recovery: Recovery, lines: seq<string>) returns (contents: Contents)
    ensures contents == Recovered(recovery, lines)
  {
    var body: seq<Byte>, corrupt := [], 0;
    for i := 0 to |lines|
      invariant
        var rest := Recovered(recovery, lines[i..]);
        Recovered(recovery, lines) == Contents(body + rest.body, corrupt + rest.corrupt)
    {
      var payload := recovery(lines[i]);
      ghost var before := body;
      if payload.Some? {
        body := body + payload.value + [LF];
      } else {
        corrupt := corrupt + 1;
      }
      assert lines[i..][0] == lines[i] && lines[i..][1..] == lines[i + 1..];
      ghost var rest := Recovered(recovery, lines[i + 1..]).body;
      assert payload.Some? ==> before + (payload.value + [LF] + rest) == body + rest;
    }
    contents := Contents(body, corrupt);
  }

  /** A data file without an index is taken as it is. */
  function Unindexed(codec: Codec, compression: Compression, data: seq<Byte>): Option<Contents> {
    var body := if compression.Plain? then Some(data) else codec.decompress(data);
    if body.None? then None else Some(Contents(body.value, 0))
  }

  /** What a pair of files holds; nothing without a data file or when the index is not text. */
  function ContentsOf(codec: Codec, compression: Compression, files: Files): Option<Contents> {
    if files.data.None? then None
    else if files.index.None? then Unindexed(codec, compression, files.data.value)
    else
      var text := Decode(files.index.value);
      if text.None? then None else Some(Recovered(RecoveryOf(codec, compression, files.data.value), Lines(text.value)))
  }

  /** Reads one segment. */
  method ReadSegment(codec: Codec, compression: Compression, files: Files) returns (contents: Option<Contents>)
    ensures contents == ContentsOf(codec, compression, files)
  {
    if files.data.None? {
      return None;
    }
    if files.index.None? {
      return Unindexed(codec, compression, files.data.value);
    }
    var text := Decode(files.index.value);
    if text.None? {
      return None;
    }
    var recovered := RecoverLines(RecoveryOf(codec, compression, files.data.value), Lines(text.value));
    contents := Some(recovered);
  }

  // ---------------------------------------------------------------------------
  // What is written is read back

  /** The stored bytes are the encoded line, and the identifier is 64 bits wide. */
  predicate IsSound(codec: Codec, compression: Compression, r: Record) {
    codec.EncodeRecord(r.line, compression) == Some(r.stored) && r.id <= MAX_USIZE
  }

  predicate AllSound(codec: Codec, compression: Compression, records: seq<Record>) {
    forall i :: 0 <= i < |records| ==> IsSound(codec, compression, records[i])
  }

  function Data(records: seq<Record>): seq<Byte> {
    if records == [] then [] else records[0].stored + Data(records[1..])
  }

  function Bodies(records: seq<Record>): seq<Byte> {
    if records == [] then [] else records[0].line + [LF] + Bodies(records[1..])
  }

  function IndexLines(indexing: Indexing, offset: nat, records: seq<Record>): seq<string>
    decreases |records|
  {
    if records == [] then []
    else [indexing(records[0], offset)] + IndexLines(indexing, offset + |records[0].stored|, records[1..])
  }

  function IndexText(indexing: Indexing, offset: nat, records: seq<Record>): string {
    EndLines(IndexLines(indexing, offset, records))
  }

  lemma {:induction false} DataGrows(records: seq<Record>, r: Record)
    ensures Data(records + [r]) == Data(records) + r.stored
    decreases |records|
  {
    if records == [] {
      assert ([r])[1..] == [] && records + [r] == [r];
    } else {
      assert (records + [r])[1..] == records[1..] + [r];
      DataGrows(records[1..], r);
    }
  }

  lemma {:induction false} IndexGrows(indexing: Indexing, offset: nat, records: seq<Record>, r: Record)
    ensures IndexLines(indexing, offset, records + [r])
         == IndexLines(indexing, offset, records) + [indexing(r, offset + |Data(records)|)]
    decreases |records|
  {
    if records == [] {
      assert ([r])[1..] == [] && records + [r] == [r];
    } else {
      assert (records + [r])[1..] == records[1..] + [r];
      IndexGrows(indexing, offset + |records[0].stored|, records[1..], r);
    }
  }

  lemma {:induction false} EndLinesGrow(lines: seq<string>, line: string)
    ensures EndLines(lines + [line]) == EndLines(lines) + (line + "\n")
    decreases |lines|
  {
    if lines == [] {
      assert ([line])[1..] == [] && lines + [line] == [line];
      assert line + "\n" + [] == line + "\n";
    } else {
      assert (lines + [line])[1..] == lines[1..] + [line];
      EndLinesGrow(lines[1..], line);
      assert lines[0] + "\n" + (EndLines(lines[1..]) + (line + "\n")) == EndLines(lines) + (line + "\n");
    }
  }

  /** The files hold these records after what they held before. */
  predicate HoldAfter(indexing: Indexing, base: Files, records: seq<Record>, files: Files) {
    && files.Held() == base.Held() + Data(records)
    && files.Indexed() == base.Indexed() + Encode(IndexText(indexing, |base.Held()|, records))
    && files.index.Some? == (base.index.Some? || records != [])
    && files.data.Some? == (base.data.Some? || records != [])
  }

  lemma IndexTextGrows(indexing: Indexing, offset: nat, records: seq<Record>, r: Record)
    ensures IndexText(indexing, offset, records + [r])
         == IndexText(indexing, offset, records) + (indexing(r, offset + |Data(records)|) + "\n")
  {
    IndexGrows(indexing, offset, records, r);
    EndLinesGrow(IndexLines(indexing, offset, records), indexing(r, offset + |Data(records)|));
  }

  lemma OneMoreHeld(indexing: Indexing, base: Files, records: seq<Record>, files: Files, r: Record)
    requires HoldAfter(indexing, base, records, files)
    ensures HoldAfter(indexing, base, records + [r], Write(indexing, files, r))
  {
    DataGrows(records, r);
    Regroup(base.Held(), Data(records), r.stored);
    var text, line := IndexText(indexing, |base.Held()|, records), indexing(r, |files.Held()|) + "\n";
    IndexTextGrows(indexing, |base.Held()|, records, r);
    EncodeAppend(text, line);
    Regroup(base.Indexed(), Encode(text), Encode(line));
  }

  /** What the files hold after any number of writes. */
  lemma {:induction false} WrittenFiles(indexing: Indexing, base: Files, records: seq<Record>)
    ensures HoldAfter(indexing, base, records, WriteAll(indexing, base, records))
    decreases |records|
  {
    if records == [] {
      assert base.Held() + [] == base.Held() && base.Indexed() + [] == base.Indexed();
    } else {
      var before, r := records[..|records| - 1], records[|records| - 1];
      assert records == before + [r];
      WrittenFiles(indexing, base, before);
      OneMoreHeld(indexing, base, before, WriteAll(indexing, base, before), r);
    }
  }

  lemma WriteLast(indexing: Indexing, base: Files, records: seq<Record>, r: Record)
    ensures WriteAll(indexing, base, records + [r]) == Write(indexing, WriteAll(indexing, base, records), r)
  {
    assert (records + [r])[..|records|] == records;
  }

  /** Writing in two runs is writing in one. */
  lemma {:induction false} WriteAllAppend(indexing: Indexing, base: Files, a: seq<Record>, b: seq<Record>)
    ensures WriteAll(indexing, WriteAll(indexing, base, a), b) == WriteAll(indexing, base, a + b)
    decreases |b|
  {
    if |b| == 0 {
      assert a + b == a;
    } else {
      var init, r := b[..|b| - 1], b[|b| - 1];
      WriteAllAppend(indexing, base, a, init);
      WriteLast(indexing, base, a + init, r);
      InitAndLast(b);
      Regroup(a, init, [r]);
    }
  }

  // ---------------------------------------------------------------------------
  // An index line leads to its own record

  lemma NumberIsWord(n: nat)
    ensures IsWord(Decimal(n), IsWhitespace) && '\n' !in Decimal(n) && '\r' !in Decimal(n)
  {
    NumberReads(n);
    forall i | 0 <= i < |Decimal(n)|
      ensures !IsWhitespace(Decimal(n)[i])
    {
      assert IsAsciiDigit(Decimal(n)[i]);
    }
  }

  lemma ChecksumIsWord(n: Word32)
    ensures IsWord(Hex(n, 8), IsWhitespace) && '\n' !in Hex(n, 8) && '\r' !in Hex(n, 8)
    ensures ParseHex(Hex(n, 8), 0xFFFF_FFFF) == Some(n)
  {
    EightHexDigits();
    HexReads(n, 8);
    forall i | 0 <= i < 8
      ensures !IsWhitespace(Hex(n, 8)[i]) && Hex(n, 8)[i] != '+'
    {
      assert IsHexDigit(Hex(n, 8)[i]);
    }
  }

  lemma EightHexDigits()
    ensures Pow16(8) == 0x1_0000_0000
  {
    assert Pow16(2) == 256;
    assert Pow16(4) == 65536;
    assert Pow16(6) == 0x100_0000;
  }

  lemma IndexLineReads(codec: Codec, r: Record, compression: Compression, offset: nat)
    requires offset <= MAX_USIZE && IndexedLength(r, compression) <= MAX_USIZE && r.id <= MAX_USIZE
    ensures ParseIndexEntry(IndexLine(codec, r, compression, offset))
         == Some(Entry(offset, IndexedLength(r, compression), codec.crc(r.line)))
  {
    var length, crc := IndexedLength(r, compression), codec.crc(r.line);
    NumberIsWord(offset);
    NumberIsWord(length);
    NumberIsWord(r.id);
    ChecksumIsWord(crc);
    FourWords(Decimal(offset), Decimal(length), Decimal(r.id), Hex(crc, 8), IsWhitespace);
    DecimalParses(offset, MAX_USIZE);
    DecimalParses(length, MAX_USIZE);
    DecimalParses(r.id, MAX_USIZE);
  }

  lemma RecordIsSelected(codec: Codec, compression: Compression, before: seq<Byte>, r: Record, after: seq<Byte>)
    requires codec.Lawful() && codec.EncodeRecord(r.line, compression) == Some(r.stored)
    ensures
      var data, end := before + r.stored + after, |before| + IndexedLength(r, compression);
      InBounds(data, end, compression) && codec.DecodeRecord(data[|before|..end], compression) == Some(r.line)
  {
    var data, length := before + r.stored + after, IndexedLength(r, compression);
    assert data[|before|..|before| + |r.stored|] == r.stored;
    if compression.Plain? {
      assert data[|before|..|before| + length] == r.line;
      assert data[|before| + length] == LF;
    } else {
      assert codec.decompress(r.stored) == Some(r.line + [LF]);
      assert (r.line + [LF])[..|r.line|] == r.line;
    }
  }

  lemma RecoverIs(codec: Codec, compression: Compression, data: seq<Byte>, line: string, entry: Entry,
                  payload: seq<Byte>)
    requires ParseIndexEntry(line) == Some(entry) && entry.offset + entry.length <= MAX_USIZE
    requires InBounds(data, entry.offset + entry.length, compression)
    requires codec.DecodeRecord(data[entry.offset..entry.offset + entry.length], compression) == Some(payload)
    requires codec.crc(payload) == entry.crc
    ensures Recover(codec, compression, data, line) == Some(payload)
  {
  }

  /** Wherever a record lies in a data file, its index line recovers its own line from there. */
  lemma OwnRecordIsRecovered(codec: Codec, compression: Compression, before: seq<Byte>, r: Record, after: seq<Byte>)
    requires codec.Lawful() && IsSound(codec, compression, r) && |before| + |r.stored| <= MAX_USIZE
    ensures Recover(codec, compression, before + r.stored + after, IndexLine(codec, r, compression, |before|))
         == Some(r.line)
  {
    IndexLineReads(codec, r, compression, |before|);
    RecordIsSelected(codec, compression, before, r, after);
    RecoverIs(codec, compression, before + r.stored + after, IndexLine(codec, r, compression, |before|),
              Entry(|before|, IndexedLength(r, compression), codec.crc(r.line)), r.line);
  }

  lemma RecoveredCons(recovery: Recovery, line: string, lines: seq<string>, payload: seq<Byte>)
    requires recovery(line) == Some(payload)
    ensures Recovered(recovery, [line] + lines)
         == Contents(payload + [LF] + Recovered(recovery, lines).body, Recovered(recovery, lines).corrupt)
  {
    assert ([line] + lines)[1..] == lines;
  }

  /** Each record's index line leads to its own line. */
  predicate RecoversOwn(recovery: Recovery, indexing: Indexing, offset: nat, records: seq<Record>)
    decreases |records|
  {
    records != [] ==>
      && recovery(indexing(records[0], offset)) == Some(records[0].line)
      && RecoversOwn(recovery, indexing, offset + |records[0].stored|, records[1..])
  }

  lemma {:induction false} OwnLinesAreRecovered(recovery: Recovery, indexing: Indexing, offset: nat,
                                                records: seq<Record>)
    requires RecoversOwn(recovery, indexing, offset, records)
    ensures Recovered(recovery, IndexLines(indexing, offset, records)) == Contents(Bodies(records), 0)
    decreases |records|
  {
    if records != [] {
      var r, rest := records[0], records[1..];
      OwnLinesAreRecovered(recovery, indexing, offset + |r.stored|, rest);
      RecoveredCons(recovery, indexing(r, offset), IndexLines(indexing, offset + |r.stored|, rest), r.line);
    }
  }

  lemma {:induction false} RecordsRecoverOwn(codec: Codec, compression: Compression, data: seq<Byte>,
                                             before: seq<Byte>, records: seq<Record>)
    requires codec.Lawful() && AllSound(codec, compression, records)
    requires data == before + Data(records) && |data| <= MAX_USIZE
    ensures RecoversOwn(RecoveryOf(codec, compression, data), IndexingOf(codec, compression), |before|, records)
    decreases |records|
  {
    if records != [] {
      var r, rest := records[0], records[1..];
      Regroup(before, r.stored, Data(rest));
      OwnRecordIsRecovered(codec, compression, before, r, Data(rest));
      RecordsRecoverOwn(codec, compression, data, before + r.stored, rest);
    }
  }

  // ---------------------------------------------------------------------------
  // The index file splits into its lines

  predicate IsIndexLine(line: string) {
    line != [] && '\n' !in line && '\r' !in line
  }

  /** Whole lines: nothing, or text that ends with a line feed. */
  predicate IsWhole(text: string) {
    text != [] ==> text[|text| - 1] == '\n'
  }

  /** The whole lines at the beginning of a text. */
  function Whole(text: string): string {
    if IsWhole(text) then text else Whole(text[..|text| - 1])
  }

  /** The line at the end of a text that no line feed ends. */
  function Partial(text: string): string {
    if IsWhole(text) then [] else Partial(text[..|text| - 1]) + [text[|text| - 1]]
  }

  lemma {:induction false} WholeAndPartial(text: string)
    ensures Whole(text) + Partial(text) == text && IsWhole(Whole(text)) && '\n' !in Partial(text)
    decreases |text|
  {
    if !IsWhole(text) {
      WholeAndPartial(text[..|text| - 1]);
    }
  }

  lemma LinesCons(line: string, rest: string)
    requires '\n' !in line && WithoutReturn(line) == line
    ensures Lines(line + "\n" + rest) == [line] + Lines(rest)
  {
    LineComesFirst(line, rest);
  }

  lemma FirstLineStays(whole: string, rest: string)
    requires IsWhole(whole) && whole != []
    ensures
      var end := Find(whole, IsLineFeed);
      && end < |whole| && Find(whole + rest, IsLineFeed) == end && (whole + rest)[..end] == whole[..end]
      && (whole + rest)[end + 1..] == whole[end + 1..] + rest && IsWhole(whole[end + 1..])
  {
    FindIs(whole + rest, IsLineFeed, Find(whole, IsLineFeed));
  }

  lemma LinesStep(text: string, line: string, more: string)
    requires var end := Find(text, IsLineFeed); end < |text| && text[..end] == line && text[end + 1..] == more
    ensures Lines(text) == [WithoutReturn(line)] + Lines(more)
  {
  }

  /** Whole lines are read on their own. */
  lemma {:induction false} LinesAppend(whole: string, rest: string)
    requires IsWhole(whole)
    ensures Lines(whole + rest) == Lines(whole) + Lines(rest)
    decreases |whole|
  {
    if |whole| == 0 {
      assert whole + rest == rest;
    } else {
      var end := Find(whole, IsLineFeed);
      var line, more := whole[..end], whole[end + 1..];
      FirstLineStays(whole, rest);
      LinesAppend(more, rest);
      LinesStep(whole, line, more);
      LinesStep(whole + rest, line, more + rest);
      Regroup([WithoutReturn(line)], Lines(more), Lines(rest));
    }
  }

  lemma {:induction false} LinesOfIndex(lines: seq<string>)
    requires AreIndexLines(lines)
    ensures Lines(EndLines(lines)) == lines
    decreases |lines|
  {
    if lines != [] {
      JoinedLine("", lines[0]);
      assert "" + lines[0] == lines[0];
      LinesCons(lines[0], EndLines(lines[1..]));
      LinesOfIndex(lines[1..]);
      assert lines == [lines[0]] + lines[1..];
    }
  }

  predicate AreIndexLines(lines: seq<string>) {
    forall i :: 0 <= i < |lines| ==> IsIndexLine(lines[i])
  }

  lemma JoinedLine(partial: string, line: string)
    requires '\n' !in partial && IsIndexLine(line)
    ensures '\n' !in partial + line && WithoutReturn(partial + line) == partial + line
  {
    var last := line[|line| - 1];
    assert (partial + line)[|partial + line| - 1] == last && last in line;
  }

  /** The first line that is added to a text goes on where the text breaks off. */
  lemma LinesContinue(text: string, line: string, more: seq<string>)
    requires IsIndexLine(line) && AreIndexLines(more)
    ensures Lines(text + EndLines([line] + more)) == Lines(Whole(text)) + ([Partial(text) + line] + more)
  {
    WholeAndPartial(text);
    JoinedLine(Partial(text), line);
    LinesOfIndex(more);
    LinesCons(Partial(text) + line, EndLines(more));
    LinesAppend(Whole(text), Partial(text) + line + "\n" + EndLines(more));
    BreakMoves(Whole(text), Partial(text), line, more);
  }

  lemma BreakMoves(whole: string, partial: string, line: string, more: seq<string>)
    ensures whole + partial + EndLines([line] + more) == whole + (partial + line + "\n" + EndLines(more))
  {
    assert ([line] + more)[1..] == more;
    Regroup(whole, partial, line + "\n" + EndLines(more));
    assert partial + (line + "\n" + EndLines(more)) == partial + line + "\n" + EndLines(more);
  }

  ghost predicate PrintsLines(indexing: Indexing) {
    forall r, offset: nat :: IsIndexLine(indexing(r, offset))
  }

  lemma IndexLineIsLine(codec: Codec, compression: Compression)
    ensures PrintsLines(IndexingOf(codec, compression))
  {
    forall r, offset: nat
      ensures IsIndexLine(IndexingOf(codec, compression)(r, offset))
    {
      NumberIsWord(offset);
      NumberIsWord(IndexedLength(r, compression));
      NumberIsWord(r.id);
      ChecksumIsWord(codec.crc(r.line));
    }
  }

  lemma {:induction false} IndexLinesAreLines(indexing: Indexing, offset: nat, records: seq<Record>)
    requires PrintsLines(indexing)
    ensures AreIndexLines(IndexLines(indexing, offset, records))
    decreases |records|
  {
    if records != [] {
      IndexLinesAreLines(indexing, offset + |records[0].stored|, records[1..]);
    }
  }

  // ---------------------------------------------------------------------------
  // Reading what was found and what was written

  function Together(a: Contents, b: Contents): Contents {
    Contents(a.body + b.body, a.corrupt + b.corrupt)
  }

  lemma {:induction false} RecoveredAppend(recovery: Recovery, a: seq<string>, b: seq<string>)
    ensures Recovered(recovery, a + b) == Together(Recovered(recovery, a), Recovered(recovery, b))
    decreases |a|
  {
    if a == [] {
      assert a + b == b && [] + Recovered(recovery, b).body == Recovered(recovery, b).body;
    } else {
      RecoveredAppend(recovery, a[1..], b);
      assert (a + b)[1..] == a[1..] + b;
      var first := recovery(a[0]);
      if first.Some? {
        Regroup(first.value + [LF], Recovered(recovery, a[1..]).body, Recovered(recovery, b).body);
      }
    }
  }

  /** The index line that the first of the records gets after a text. */
  function FirstLine(indexing: Indexing, base: Files, text: string, r: Record): string {
    Partial(text) + indexing(r, |base.Held()|)
  }

  /** The lines of an index that went on after a text. */
  function LinesGoOn(indexing: Indexing, base: Files, text: string, r: Record, rest: seq<Record>): seq<string> {
    Lines(Whole(text))
    + ([FirstLine(indexing, base, text, r)] + IndexLines(indexing, |base.Held()| + |r.stored|, rest))
  }

  lemma IndexLinesCons(indexing: Indexing, offset: nat, r: Record, rest: seq<Record>)
    ensures IndexLines(indexing, offset, [r] + rest)
         == [indexing(r, offset)] + IndexLines(indexing, offset + |r.stored|, rest)
  {
    assert ([r] + rest)[1..] == rest;
  }

  lemma LinesContinueAs(text: string, lines: seq<string>, line: string, more: seq<string>)
    requires IsIndexLine(line) && AreIndexLines(more) && lines == [line] + more
    ensures Lines(text + EndLines(lines)) == Lines(Whole(text)) + ([Partial(text) + line] + more)
  {
    LinesContinue(text, line, more);
  }

  lemma TextGoesOn(indexing: Indexing, base: Files, text: string, r: Record, rest: seq<Record>)
    requires PrintsLines(indexing)
    ensures Lines(text + IndexText(indexing, |base.Held()|, [r] + rest))
         == LinesGoOn(indexing, base, text, r, rest)
  {
    IndexLinesAreLines(indexing, |base.Held()| + |r.stored|, rest);
    IndexLinesCons(indexing, |base.Held()|, r, rest);
    LinesContinueAs(text, IndexLines(indexing, |base.Held()|, [r] + rest), indexing(r, |base.Held()|),
                    IndexLines(indexing, |base.Held()| + |r.stored|, rest));
  }

  lemma LinesAfter(indexing: Indexing, base: Files, text: string, r: Record, rest: seq<Record>)
    requires PrintsLines(indexing) && Decode(base.Indexed()) == Some(text)
    ensures
      var files := WriteAll(indexing, base, [r] + rest);
      && files.data == Some(base.Held() + Data([r] + rest)) && files.index.Some? && Decode(files.index.value).Some?
      && Lines(Decode(files.index.value).value) == LinesGoOn(indexing, base, text, r, rest)
  {
    WrittenText(indexing, base, text, [r] + rest);
    TextGoesOn(indexing, base, text, r, rest);
  }

  lemma RecoveredInParts(recovery: Recovery, whole: seq<string>, first: string, rest: seq<string>, tail: Contents)
    requires Recovered(recovery, rest) == tail
    ensures Recovered(recovery, whole + ([first] + rest))
         == Together(Recovered(recovery, whole), Together(Recovered(recovery, [first]), tail))
  {
    RecoveredAppend(recovery, whole, [first] + rest);
    RecoveredAppend(recovery, [first], rest);
  }

  /** The old whole lines, the line at the break, and the records after the first. */
  function ReadOn(recovery: Recovery, indexing: Indexing, base: Files, text: string, r: Record,
                  rest: seq<Record>): Contents
  {
    Together(Recovered(recovery, Lines(Whole(text))),
             Together(Recovered(recovery, [FirstLine(indexing, base, text, r)]), Contents(Bodies(rest), 0)))
  }

  lemma RecoveredGoesOn(recovery: Recovery, indexing: Indexing, base: Files, text: string, r: Record,
                        rest: seq<Record>)
    requires RecoversOwn(recovery, indexing, |base.Held()| + |r.stored|, rest)
    ensures Recovered(recovery, LinesGoOn(indexing, base, text, r, rest))
         == ReadOn(recovery, indexing, base, text, r, rest)
  {
    OwnLinesAreRecovered(recovery, indexing, |base.Held()| + |r.stored|, rest);
    RecoveredInParts(recovery, Lines(Whole(text)), FirstLine(indexing, base, text, r),
                     IndexLines(indexing, |base.Held()| + |r.stored|, rest), Contents(Bodies(rest), 0));
  }

  lemma RestRecoversOwn(codec: Codec, compression: Compression, before: seq<Byte>, r: Record, rest: seq<Record>)
    requires codec.Lawful() && AllSound(codec, compression, [r] + rest)
    requires |before| + |Data([r] + rest)| <= MAX_USIZE
    ensures RecoversOwn(RecoveryOf(codec, compression, before + Data([r] + rest)), IndexingOf(codec, compression),
                        |before| + |r.stored|, rest)
  {
    var records := [r] + rest;
    assert records[1..] == rest && forall i :: 0 <= i < |rest| ==> rest[i] == records[i + 1];
    Regroup(before, r.stored, Data(rest));
    RecordsRecoverOwn(codec, compression, before + Data(records), before + r.stored, rest);
  }

  lemma ContentsAre(codec: Codec, compression: Compression, files: Files, recovery: Recovery, lines: seq<string>)
    requires files.index.Some? && Decode(files.index.value).Some? && Lines(Decode(files.index.value).value) == lines
    requires files.data.Some? && recovery == RecoveryOf(codec, compression, files.data.value)
    ensures ContentsOf(codec, compression, files) == Some(Recovered(recovery, lines))
  {
  }

  lemma ReadingGoesOnBy(codec: Codec, compression: Compression, recovery: Recovery, indexing: Indexing, base: Files,
                        text: string, r: Record, rest: seq<Record>)
    requires PrintsLines(indexing) && Decode(base.Indexed()) == Some(text)
    requires recovery == RecoveryOf(codec, compression, base.Held() + Data([r] + rest))
    requires RecoversOwn(recovery, indexing, |base.Held()| + |r.stored|, rest)
    ensures ContentsOf(codec, compression, WriteAll(indexing, base, [r] + rest))
         == Some(ReadOn(recovery, indexing, base, text, r, rest))
  {
    LinesAfter(indexing, base, text, r, rest);
    ContentsAre(codec, compression, WriteAll(indexing, base, [r] + rest), recovery,
                LinesGoOn(indexing, base, text, r, rest));
    RecoveredGoesOn(recovery, indexing, base, text, r, rest);
  }

  /**
   Whatever the files held before, and wherever their index breaks off: reading gives the
   old whole lines as they stand in the longer data, then the line at the break, then
   every record written after the first.
   */
  lemma ReadingGoesOn(codec: Codec, compression: Compression, base: Files, text: string, r: Record, rest: seq<Record>)
    requires codec.Lawful() && AllSound(codec, compression, [r] + rest)
    requires |base.Held()| + |Data([r] + rest)| <= MAX_USIZE && Decode(base.Indexed()) == Some(text)
    ensures
      var recovery := RecoveryOf(codec, compression, base.Held() + Data([r] + rest));
      ContentsOf(codec, compression, WriteAll(IndexingOf(codec, compression), base, [r] + rest))
        == Some(ReadOn(recovery, IndexingOf(codec, compression), base, text, r, rest))
  {
    IndexLineIsLine(codec, compression);
    RestRecoversOwn(codec, compression, base.Held(), r, rest);
    ReadingGoesOnBy(codec, compression, RecoveryOf(codec, compression, base.Held() + Data([r] + rest)),
                    IndexingOf(codec, compression), base, text, r, rest);
  }

  lemma WrittenText(indexing: Indexing, base: Files, text: string, records: seq<Record>)
    requires Decode(base.Indexed()) == Some(text)
    ensures
      var files := WriteAll(indexing, base, records);
      && files.Held() == base.Held() + Data(records) && files.index.Some? == (base.index.Some? || records != [])
      && files.data.Some? == (base.data.Some? || records != [])
      && Decode(files.Indexed()) == Some(text + IndexText(indexing, |base.Held()|, records))
  {
    var lines := IndexText(indexing, |base.Held()|, records);
    WrittenFiles(indexing, base, records);
    DecodeIsExact(base.Indexed(), text);
    EncodeAppend(text, lines);
    DecodeIsExact(base.Indexed() + Encode(lines), text + lines);
  }

  lemma WholeReadsOn(recovery: Recovery, indexing: Indexing, base: Files, text: string, r: Record, rest: seq<Record>)
    requires IsWhole(text) && recovery(indexing(r, |base.Held()|)) == Some(r.line)
    ensures ReadOn(recovery, indexing, base, text, r, rest)
         == Together(Recovered(recovery, Lines(text)), Contents(Bodies([r] + rest), 0))
  {
    var line := indexing(r, |base.Held()|);
    assert FirstLine(indexing, base, text, r) == line;
    RecoveredCons(recovery, line, [], r.line);
    assert [line] + [] == [line] && r.line + [LF] + [] == r.line + [LF];
    assert ([r] + rest)[1..] == rest;
  }

  lemma FirstIsRecovered(codec: Codec, compression: Compression, before: seq<Byte>, r: Record, rest: seq<Record>)
    requires codec.Lawful() && IsSound(codec, compression, r) && |before| + |Data([r] + rest)| <= MAX_USIZE
    ensures RecoveryOf(codec, compression, before + Data([r] + rest))(IndexingOf(codec, compression)(r, |before|))
         == Some(r.line)
  {
    assert ([r] + rest)[1..] == rest;
    Regroup(before, r.stored, Data(rest));
    OwnRecordIsRecovered(codec, compression, before, r, Data(rest));
  }

  /** If the old index ends with a whole line, every record written is read back after what it led to. */
  lemma WholeIndexGoesOn(codec: Codec, compression: Compression, base: Files, text: string, records: seq<Record>)
    requires codec.Lawful() && AllSound(codec, compression, records) && records != []
    requires |base.Held()| + |Data(records)| <= MAX_USIZE && Decode(base.Indexed()) == Some(text) && IsWhole(text)
    ensures
      var recovery := RecoveryOf(codec, compression, base.Held() + Data(records));
      ContentsOf(codec, compression, WriteAll(IndexingOf(codec, compression), base, records)) ==
        Some(Together(Recovered(recovery, Lines(text)), Contents(Bodies(records), 0)))
  {
    var r, rest := records[0], records[1..];
    assert records == [r] + rest;
    ReadingGoesOn(codec, compression, base, text, r, rest);
    FirstIsRecovered(codec, compression, base.Held(), r, rest);
    WholeReadsOn(RecoveryOf(codec, compression, base.Held() + Data(records)),
                 IndexingOf(codec, compression), base, text, r, rest);
  }

  /** Reading files that began empty gives every line written to them, in order, and reports no corruption. */
  lemma WrittenIsReadBack(codec: Codec, compression: Compression, records: seq<Record>)
    requires codec.Lawful() && AllSound(codec, compression, records) && |Data(records)| <= MAX_USIZE && records != []
    ensures
      var files := WriteAll(IndexingOf(codec, compression), NO_FILES, records);
      ContentsOf(codec, compression, files) == Some(Contents(Bodies(records), 0))
  {
    WholeIndexGoesOn(codec, compression, NO_FILES, "", records);
    assert [] + Bodies(records) == Bodies(records);
  }

  /** The first record written to a data file without an index hides what the file held. */
  lemma AppendHidesUnindexed(codec: Codec, data: seq<Byte>, records: seq<Record>)
    requires codec.Lawful() && AllSound(codec, Plain, records) && records != [] && |data| + |Data(records)| <= MAX_USIZE
    ensures ContentsOf(codec, Plain, Files(Some(data), None)) == Some(Contents(data, 0))
    ensures ContentsOf(codec, Plain, WriteAll(IndexingOf(codec, Plain), Files(Some(data), None), records))
         == Some(Contents(Bodies(records), 0))
  {
    WholeIndexGoesOn(codec, Plain, Files(Some(data), None), "", records);
    assert [] + Bodies(records) == Bodies(records);
  }
}
