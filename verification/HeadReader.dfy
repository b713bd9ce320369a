/**
 Reading an HTTP head: one byte at a time, and from a buffer with an automaton for
 the terminator. Both give, for every stream, the outcome that the bytes of the stream,
 its end and the limit determine.
 */
module HeadReader {
  import opened Text
  import opened Bytes

  /** The empty line that ends a head (section 2.1 of RFC 9112). */
  const TERMINATOR: seq<Byte> := [CR, LF, CR, LF]

  /** How a stream ends after its bytes. */
  datatype End = Closed | Broken(error: string)

  datatype Outcome =
    | Nothing
    | Head(head: seq<Byte>)
    | Truncated
    | TooLarge
    | Failed(error: string)

  /** The first `k` terminator bytes are the last bytes of `text`. */
  predicate EndsWithPrefix(text: seq<Byte>, k: nat) {
    k <= 4 && k <= |text| && text[|text| - k..] == TERMINATOR[..k]
  }

  predicate Terminated(text: seq<Byte>) {
    EndsWithPrefix(text, 4)
  }

  predicate Unterminated(text: seq<Byte>) {
    forall p :: 0 <= p <= |text| ==> !Terminated(text[..p])
  }

  /** Length through the first terminator, searching from `n`. */
  function FirstEnd(bytes: seq<Byte>, n: nat): (stop: Option<nat>)
    requires n <= |bytes|
    ensures stop.Some? ==> n <= stop.value <= |bytes| && 4 <= stop.value
    decreases |bytes| - n
  {
    if Terminated(bytes[..n]) then Some(n)
    else if n == |bytes| then None
    else FirstEnd(bytes, n + 1)
  }

  /** What reading a head must give, as a function of the whole stream. */
  function Expected(bytes: seq<Byte>, end: End, limit: nat): Outcome {
    var stop := FirstEnd(bytes, 0);
    if stop.Some? && stop.value <= limit then Head(bytes[..stop.value - 4])
    else if |bytes| > limit then TooLarge
    else if end.Broken? then Failed(end.error)
    else if bytes == [] then Nothing
    else Truncated
  }

  lemma {:induction false} FirstEndIs(bytes: seq<Byte>, n: nat, stop: nat)
    requires n <= stop <= |bytes| && Terminated(bytes[..stop])
    requires forall p :: n <= p < stop ==> !Terminated(bytes[..p])
    ensures FirstEnd(bytes, n) == Some(stop)
    decreases stop - n
  {
    if n < stop {
      FirstEndIs(bytes, n + 1, stop);
    }
  }

  lemma {:induction false} NoEnd(bytes: seq<Byte>, n: nat)
    requires n <= |bytes| && Unterminated(bytes)
    ensures FirstEnd(bytes, n).None?
    decreases |bytes| - n
  {
    if n < |bytes| {
      NoEnd(bytes, n + 1);
    }
  }

  lemma {:induction false} EndIsAfter(bytes: seq<Byte>, n: nat, k: nat)
    requires n <= k <= |bytes| && Unterminated(bytes[..k])
    ensures FirstEnd(bytes, n).Some? ==> FirstEnd(bytes, n).value > k
    decreases k - n
  {
    assert bytes[..k][..n] == bytes[..n];
    if n < k {
      EndIsAfter(bytes, n + 1, k);
    }
  }

  /** A head is read exactly when it is followed by the first terminator and fits the limit. */
  lemma HeadIsWhatPrecedesFirstTerminator(bytes: seq<Byte>, end: End, limit: nat, head: seq<Byte>)
    ensures Expected(bytes, end, limit) == Head(head) <==>
      && head + TERMINATOR <= bytes && |head| + 4 <= limit
      && Unterminated(bytes[..|head| + 3])
  {
    var n := |head| + 4;
    if head + TERMINATOR <= bytes && n <= limit && Unterminated(bytes[..|head| + 3]) {
      assert bytes[..n] == head + TERMINATOR;
      assert bytes[..n][n - 4..] == TERMINATOR == TERMINATOR[..4];
      forall p | 0 <= p < n
        ensures !Terminated(bytes[..p])
      {
        assert bytes[..p] == bytes[..n - 1][..p];
      }
      FirstEndIs(bytes, 0, n);
      assert bytes[..n - 4] == head;
    } else if Expected(bytes, end, limit) == Head(head) {
      EndIsTerminated(bytes, 0);
      var stop := FirstEnd(bytes, 0).value;
      assert bytes[..stop][stop - 4..] == TERMINATOR[..4] == TERMINATOR;
      assert bytes[..stop] == bytes[..stop - 4] + TERMINATOR;
      var before := bytes[..stop - 1];
      forall p | 0 <= p <= |before|
        ensures !Terminated(before[..p])
      {
        assert before[..p] == bytes[..p];
        NothingEndsBefore(bytes, 0, p);
      }
    }
  }

  lemma {:induction false} EndIsTerminated(bytes: seq<Byte>, n: nat)
    requires n <= |bytes|
    ensures FirstEnd(bytes, n).Some? ==> Terminated(bytes[..FirstEnd(bytes, n).value])
    decreases |bytes| - n
  {
    if n < |bytes| {
      EndIsTerminated(bytes, n + 1);
    }
  }

  lemma {:induction false} NothingEndsBefore(bytes: seq<Byte>, n: nat, p: nat)
    requires n <= p <= |bytes| && FirstEnd(bytes, n).Some? && p < FirstEnd(bytes, n).value
    ensures !Terminated(bytes[..p])
    decreases p - n
  {
    if n < p {
      NothingEndsBefore(bytes, n + 1, p);
    }
  }

  lemma UnterminatedExtends(text: seq<Byte>, more: seq<Byte>)
    requires Unterminated(text) && text <= more && |more| == |text| + 1 && !Terminated(more)
    ensures Unterminated(more)
  {
    forall p | 0 <= p <= |more|
      ensures !Terminated(more[..p])
    {
      if p <= |text| {
        assert more[..p] == text[..p];
      } else {
        assert more[..p] == more;
      }
    }
  }

  // ---------------------------------------------------------------------------
  // One byte at a time

  /** A stream that gives one byte per read. */
  class ByteStream {
    var bytes: seq<Byte>
    const end: End

    constructor (bytes: seq<Byte>, end: End)
      ensures this.bytes == bytes && this.end == end
    {
      this.bytes := bytes;
      this.end := end;
    }

    method Read() returns (byte: Option<Byte>)
      modifies this
      ensures old(bytes) == [] ==> byte.None? && bytes == []
      ensures old(bytes) != [] ==> byte == Some(old(bytes)[0]) && bytes == old(bytes)[1..]
    {
      if bytes == [] {
        return None;
      }
      byte, bytes := Some(bytes[0]), bytes[1..];
    }

    /** A read that may return fewer bytes than wanted, but some while there are any. */
    method ReadSome(wanted: nat) returns (chunk: seq<Byte>)
      requires wanted > 0
      modifies this
      ensures old(bytes) == chunk + bytes && |chunk| <= wanted
      ensures chunk == [] <==> old(bytes) == []
    {
      var most := if wanted < |bytes| then wanted else |bytes|;
      var n: nat :| n <= most && (n == 0 <==> most == 0);
      chunk, bytes := bytes[..n], bytes[n..];
    }
  }

  /** What a reader owes its caller; `rest` is left on the stream. */
  predicate Reads(all: seq<Byte>, end: End, limit: nat, outcome: Outcome, rest: seq<Byte>) {
    && outcome == Expected(all, end, limit)
    && (outcome.Head? ==> |outcome.head| + 4 <= |all| && rest == all[|outcome.head| + 4..])
  }

  /** The reader is past `buf`, which holds no terminator. */
  predicate Searching(all: seq<Byte>, buf: seq<Byte>, rest: seq<Byte>, limit: nat) {
    all == buf + rest && |buf| <= limit && Unterminated(buf)
  }

  lemma StreamEnds(all: seq<Byte>, buf: seq<Byte>, end: End, limit: nat)
    requires Searching(all, buf, [], limit)
    ensures Reads(all, end, limit,
                  if end.Broken? then Failed(end.error) else if buf == [] then Nothing else Truncated, [])
  {
    assert all == buf;
    NoEnd(all, 0);
  }

  lemma LimitIsPassed(all: seq<Byte>, buf: seq<Byte>, rest: seq<Byte>, end: End, limit: nat)
    requires all == buf + rest && |buf| > limit && Unterminated(buf)
    ensures Reads(all, end, limit, TooLarge, rest)
  {
    assert all[..|buf|] == buf;
    EndIsAfter(all, 0, |buf|);
  }

  lemma ByteIsOverLimit(all: seq<Byte>, before: seq<Byte>, byte: Byte, rest: seq<Byte>, end: End, limit: nat)
    requires all == before + [byte] + rest && |before| == limit && Unterminated(before)
    ensures Reads(all, end, limit, TooLarge, rest)
  {
    assert all[..|before|] == before;
    EndIsAfter(all, 0, |before|);
  }

  lemma HeadIsFound(all: seq<Byte>, before: seq<Byte>, buf: seq<Byte>, rest: seq<Byte>, end: End, limit: nat)
    requires before <= buf && |buf| == |before| + 1 && Unterminated(before) && Terminated(buf) && all == buf + rest
    ensures Reads(all, end, limit, if |buf| > limit then TooLarge else Head(buf[..|buf| - 4]), rest)
  {
    FoundEnd(all, before, buf);
    assert all[..|buf| - 4] == buf[..|buf| - 4] && all[|buf|..] == rest;
  }

  lemma SearchGoesOn(all: seq<Byte>, before: seq<Byte>, byte: Byte, rest: seq<Byte>, limit: nat)
    requires Searching(all, before, [byte] + rest, limit) && |before| < limit && !Terminated(before + [byte])
    ensures Searching(all, before + [byte], rest, limit)
  {
    UnterminatedExtends(before, before + [byte]);
  }

  method ReadHead(stream: ByteStream, limit: nat) returns (outcome: Outcome)
    modifies stream
    ensures Reads(old(stream.bytes), stream.end, limit, outcome, stream.bytes)
  {
    var buf: seq<Byte> := [];
    ghost var all := stream.bytes;
    while true
      invariant Searching(all, buf, stream.bytes, limit)
      decreases |stream.bytes|
    {
      ghost var before := buf;
      var byte := stream.Read();
      if byte.None? {
        StreamEnds(all, buf, stream.end, limit);
        if stream.end.Broken? {
          return Failed(stream.end.error);
        }
        return if buf == [] then Nothing else Truncated;
      }
      buf := buf + [byte.value];
      assert all == buf + stream.bytes;
      if |buf| > limit {
        ByteIsOverLimit(all, before, byte.value, stream.bytes, stream.end, limit);
        return TooLarge;
      }
      if Terminated(buf) {
        HeadIsFound(all, before, buf, stream.bytes, stream.end, limit);
        return Head(buf[..|buf| - 4]);
      }
      SearchGoesOn(all, before, byte.value, stream.bytes, limit);
    }
  }

  lemma FoundEnd(all: seq<Byte>, before: seq<Byte>, buf: seq<Byte>)
    requires before <= buf <= all && |buf| == |before| + 1 && Unterminated(before) && Terminated(buf)
    ensures FirstEnd(all, 0) == Some(|buf|)
  {
    assert all[..|buf|] == buf;
    forall p | 0 <= p < |buf|
      ensures !Terminated(all[..p])
    {
      assert all[..p] == before[..p];
    }
    FirstEndIs(all, 0, |buf|);
  }

  // ---------------------------------------------------------------------------
  // From a buffer

  /** A stream that is refilled with one non-empty buffer after another. */
  class BufferedStream {
    var fills: seq<seq<Byte>>
    const end: End

    ghost predicate Valid()
      reads this
    {
      forall i :: 0 <= i < |fills| ==> fills[i] != []
    }

    ghost function Bytes(): seq<Byte>
      reads this
    {
      Concat(fills)
    }

    constructor (fills: seq<seq<Byte>>, end: End)
      requires forall i :: 0 <= i < |fills| ==> fills[i] != []
      ensures this.fills == fills && this.end == end && Valid()
    {
      this.fills := fills;
      this.end := end;
    }

    /** The buffered bytes; none are left when the stream has ended. */
    method FillBuf() returns (available: seq<Byte>)
      requires Valid()
      ensures available == if fills == [] then [] else fills[0]
    {
      available := if fills == [] then [] else fills[0];
    }

    method Consume(n: nat)
      requires Valid() && fills != [] && n <= |fills[0]|
      modifies this
      ensures Valid() && Bytes() == old(Bytes())[n..]
      ensures n > 0 ==> |Bytes()| < |old(Bytes())|
    {
      ghost var first := fills[0];
      ghost var rest := Concat(fills[1..]);
      if n == |fills[0]| {
        fills := fills[1..];
      } else {
        fills := [fills[0][n..]] + fills[1..];
        assert fills[1..] == old(fills)[1..];
      }
      assert (first + rest)[n..] == first[n..] + rest;
    }
  }

  function Concat(fills: seq<seq<Byte>>): seq<Byte> {
    if fills == [] then [] else fills[0] + Concat(fills[1..])
  }

  /** The longest terminator prefix that the text ends with. */
  predicate LongestPrefix(text: seq<Byte>, k: nat) {
    EndsWithPrefix(text, k) && forall j :: k < j <= 4 ==> !EndsWithPrefix(text, j)
  }

  const FALLBACK: seq<nat> := [0, 0, 1, 2]

  lemma PrefixStep(text: seq<Byte>, byte: Byte, k: nat)
    requires k < 4
    ensures EndsWithPrefix(text + [byte], k + 1) <==> EndsWithPrefix(text, k) && TERMINATOR[k] == byte
  {
    if k <= |text| {
      var longer := text + [byte];
      assert longer[|longer| - (k + 1)..] == text[|text| - k..] + [byte];
      assert TERMINATOR[..k + 1] == TERMINATOR[..k] + [TERMINATOR[k]];
      if EndsWithPrefix(longer, k + 1) {
        assert (text[|text| - k..] + [byte])[..k] == (TERMINATOR[..k] + [TERMINATOR[k]])[..k];
        assert (text[|text| - k..] + [byte])[k] == (TERMINATOR[..k] + [TERMINATOR[k]])[k];
      }
    }
  }

  /** Falling back skips no prefix the text ends with. */
  lemma FallbackIsNext(text: seq<Byte>, k: nat, j: nat)
    requires 0 < k < 4 && EndsWithPrefix(text, k)
    ensures EndsWithPrefix(text, FALLBACK[k - 1])
    ensures FALLBACK[k - 1] < j < k ==> !EndsWithPrefix(text, j)
  {
    var n := |text|;
    assert forall i :: 0 <= i < k ==> text[n - k..][i] == TERMINATOR[..k][i] == TERMINATOR[i];
    assert text[n..] == [] == TERMINATOR[..0];
    assert text[n - 1..] == [TERMINATOR[k - 1]] && TERMINATOR[..1] == [CR];
    if k == 3 {
      assert text[n - 2..][0] == LF && TERMINATOR[..2][0] == CR;
    }
  }

  /** No prefix longer than `k` that the text ends with goes on with the byte. */
  predicate NoneLonger(text: seq<Byte>, byte: Byte, k: nat) {
    forall j :: k < j < 4 ==> !(EndsWithPrefix(text, j) && TERMINATOR[j] == byte)
  }

  lemma FallBack(text: seq<Byte>, byte: Byte, k: nat)
    requires 0 < k < 4 && EndsWithPrefix(text, k) && byte != TERMINATOR[k] && NoneLonger(text, byte, k)
    ensures EndsWithPrefix(text, FALLBACK[k - 1]) && NoneLonger(text, byte, FALLBACK[k - 1])
  {
    FallbackIsNext(text, k, 0);
    forall j | FALLBACK[k - 1] < j < k
      ensures !EndsWithPrefix(text, j)
    {
      FallbackIsNext(text, k, j);
    }
  }

  lemma AutomatonStops(text: seq<Byte>, byte: Byte, k: nat)
    requires k < 4 && EndsWithPrefix(text, k) && NoneLonger(text, byte, k) && (k == 0 || byte == TERMINATOR[k])
    ensures LongestPrefix(text + [byte], if byte == TERMINATOR[k] then k + 1 else 0)
  {
    forall j | 1 <= j <= 4
      ensures EndsWithPrefix(text + [byte], j) <==> EndsWithPrefix(text, j - 1) && TERMINATOR[j - 1] == byte
    {
      PrefixStep(text, byte, j - 1);
    }
    assert (text + [byte])[|text + [byte]|..] == [] == TERMINATOR[..0];
  }

  /** One step of the automaton. */
  method Advance(matched: nat, byte: Byte, ghost text: seq<Byte>) returns (next: nat)
    requires matched < 4 && LongestPrefix(text, matched)
    ensures next <= 4 && LongestPrefix(text + [byte], next)
  {
    next := matched;
    while next > 0 && byte != TERMINATOR[next]
      invariant next < 4 && EndsWithPrefix(text, next) && NoneLonger(text, byte, next)
    {
      FallBack(text, byte, next);
      next := FALLBACK[next - 1];
    }
    AutomatonStops(text, byte, next);
    if byte == TERMINATOR[next] {
      next := next + 1;
    }
  }

  /** Feeds a buffer to the automaton up to the end of the terminator. */
  method ScanBuffer(available: seq<Byte>, matched: nat, ghost buf: seq<Byte>) returns (consumed: nat, complete: bool,
                    next: nat)
    requires matched < 4 && LongestPrefix(buf, matched) && Unterminated(buf)
    ensures consumed <= |available| && (available != [] ==> consumed > 0)
    ensures !complete ==>
      consumed == |available| && next < 4 && Unterminated(buf + available) && LongestPrefix(buf + available, next)
    ensures complete ==>
      consumed > 0 && Unterminated(buf + available[..consumed - 1]) && Terminated(buf + available[..consumed])
  {
    next := matched;
    var index := 0;
    assert buf + available[..0] == buf;
    while index < |available|
      invariant 0 <= index <= |available| && next < 4
      invariant LongestPrefix(buf + available[..index], next) && Unterminated(buf + available[..index])
    {
      ghost var text := buf + available[..index];
      next := Advance(next, available[index], text);
      assert buf + available[..index + 1] == text + [available[index]];
      index := index + 1;
      if next == 4 {
        return index, true, next;
      }
      UnterminatedExtends(text, buf + available[..index]);
    }
    assert available[..|available|] == available;
    return |available|, false, next;
  }

  method ReadHeadBuffered(stream: BufferedStream, limit: nat) returns (outcome: Outcome)
    requires stream.Valid()
    modifies stream
    ensures Reads(old(stream.Bytes()), stream.end, limit, outcome, stream.Bytes())
  {
    var buf: seq<Byte> := [];
    var matched := 0;
    ghost var all := stream.Bytes();
    NothingMatched();
    while true
      invariant stream.Valid() && Searching(all, buf, stream.Bytes(), limit)
      invariant matched < 4 && LongestPrefix(buf, matched)
      decreases |stream.Bytes()|
    {
      var available := stream.FillBuf();
      if available == [] {
        StreamEnds(all, buf, stream.end, limit);
        if stream.end.Broken? {
          return Failed(stream.end.error);
        }
        return if buf == [] then Nothing else Truncated;
      }
      var consumed, complete, next := ScanBuffer(available, matched, buf);
      ghost var before, rest := buf, stream.Bytes();
      stream.Consume(consumed);
      buf := buf + available[..consumed];
      BytesMove(all, before, rest, available, consumed);
      matched := next;
      if complete {
        HeadIsFound(all, before + available[..consumed - 1], buf, stream.Bytes(), stream.end, limit);
        if |buf| > limit {
          return TooLarge;
        }
        return Head(buf[..|buf| - 4]);
      }
      assert available[..consumed] == available;
      if |buf| > limit {
        LimitIsPassed(all, buf, stream.Bytes(), stream.end, limit);
        return TooLarge;
      }
    }
  }

  lemma NothingMatched()
    ensures LongestPrefix([], 0) && Unterminated([])
  {
  }

  /** Consuming bytes moves them from the stream to what has been read. */
  lemma BytesMove(all: seq<Byte>, before: seq<Byte>, rest: seq<Byte>, available: seq<Byte>, consumed: nat)
    requires all == before + rest && available <= rest && consumed <= |available|
    ensures all == before + available[..consumed] + rest[consumed..]
  {
    assert rest == available[..consumed] + rest[consumed..];
  }
}
