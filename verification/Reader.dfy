/** ShareEventOutboxReader: sequential reading of one segment file. */
module Reader {
  import opened Contracts
  import opened Checksums
  import opened Framing

  function Min(a: int, b: int): int { if a < b then a else b }
  function Max(a: int, b: int): int { if a < b then b else a }

  /** A segment file opened for reading. Reading a regular file returns all the
      bytes asked for unless the file ends first. */
  class SegmentStream {
    const content: seq<byte>
    var position: nat

    ghost predicate Valid()
      reads this
    {
      position <= |content|
    }

    constructor (content: seq<byte>, start: int)
      ensures Valid() && this.content == content
      ensures position == StartPosition(content, start)
    {
      this.content := content;
      this.position := StartPosition(content, start);
    }

    method Read(count: nat) returns (chunk: seq<byte>)
      requires Valid()
      modifies this
      ensures Valid()
      ensures position == Min(old(position) + count, |content|)
      ensures chunk == content[old(position)..position]
    {
      var end := Min(position + count, |content|);
      chunk := content[position..end];
      position := end;
    }

    method ReadExact(length: nat) returns (ok: bool, buffer: seq<byte>)
      requires Valid()
      modifies this
      ensures Valid()
      ensures position == Min(old(position) + length, |content|)
      ensures ok <==> old(position) + length <= |content|
      ensures ok ==> buffer == content[old(position)..position]
    {
      buffer := [];
      while |buffer| < length
        invariant Valid() && |buffer| <= length
        invariant position == old(position) + |buffer|
        invariant buffer == content[old(position)..position]
        decreases length - |buffer|
      {
        var chunk := Read(length - |buffer|);
        if |chunk| == 0 {
          return false, buffer;
        }
        buffer := buffer + chunk;
      }
      ok := true;
    }

    method TryReadRecord(c: Codec, name: string, limit: int) returns (step: ReadStep)
      requires Valid()
      modifies this
      ensures Valid()
      ensures step == TryReadAt(c, name, content, old(position), limit)
      ensures step.Record? ==> position == step.rec.nextOffset
    {
      hide FromLE32, FromLE16, Fnv1a;
      var offset := position;
      var ok, header := ReadExact(HEADER);
      if !ok {
        return Stop;
      }
      var magic, version := FromLE32(header[..4]), FromLE16(header[4..6]);
      var length := ToInt32(FromLE32(header[6..10]));
      if magic != MAGIC || version != VERSION || length <= 0 {
        return Stop;
      }
      if limit - position < ToInt32(length + 4) {
        return Stop;
      }
      if length > MAX_ARRAY {
        return Throws;  // the array cannot be allocated
      }
      var payload := Read(length);
      if |payload| != length {
        return Stop;
      }
      var stored;
      ok, stored := ReadExact(4);
      if !ok {
        return Stop;
      }
      var checksum := Checksum(payload);
      if FromLE32(stored) != checksum {
        return Stop;
      }
      match c.decode(payload)
      case Null => step := Stop;
      case Malformed => step := Throws;
      case Value(event) => step := Record(OutboxRecord(name, offset, position, event));
    }
  }

  function StartPosition(content: seq<byte>, start: int): (p: nat)
    ensures p <= |content|
    ensures start <= 0 ==> p == 0
    ensures 0 <= start <= |content| ==> p == start
    ensures start >= |content| ==> p == |content|
  {
    Min(Max(0, start), |content|)
  }

  /** The records between two offsets, and how reading ended. The source yields
      them one at a time. */
  method ReadSegmentRecords(c: Codec, name: string, content: seq<byte>, start: int, end: int)
    returns (records: seq<OutboxRecord>, fate: Fate)
    ensures
      var s := ScanFrom(c, name, content, StartPosition(content, start), Min(end, |content|));
      records == s.records && fate == s.fate
  {
    hide TryReadAt;
    var stream := new SegmentStream(content, start);
    var limit := Min(end, |content|);
    ghost var all := ScanFrom(c, name, content, stream.position, limit);
    records, fate := [], ReachedLimit;
    while stream.position < limit
      invariant stream.Valid() && stream.content == content && fate == ReachedLimit
      invariant
        var rest := ScanFrom(c, name, content, stream.position, limit);
        records + rest.records == all.records && rest.fate == all.fate
      decreases |content| - stream.position
    {
      var step := stream.TryReadRecord(c, name, limit);
      match step
      case Stop => return records, Stopped;
      case Throws => return records, Threw;
      case Record(r) => records := records + [r];
    }
  }

  datatype ReadResult = ReadResult(records: seq<OutboxRecord>, validLength: nat, isComplete: bool) | ReadThrew

  /** The result of reading a whole segment from `start`. */
  function SegmentResult(c: Codec, name: string, content: seq<byte>, start: int): (r: ReadResult)
    ensures r.ReadResult? ==> r.validLength <= |content|
  {
    var s := ScanFrom(c, name, content, StartPosition(content, start), |content|);
    if s.fate == Threw then ReadThrew else ReadResult(s.records, s.validLength, s.fate == ReachedLimit)
  }

  method ReadSegmentWithResult(c: Codec, name: string, content: seq<byte>, start: int)
    returns (result: ReadResult)
    ensures result == SegmentResult(c, name, content, start)
  {
    hide TryReadAt;
    var stream := new SegmentStream(content, start);
    ghost var all := ScanFrom(c, name, content, stream.position, |content|);
    var records, validLength, stoppedCleanly := [], stream.position, true;
    while stream.position < |content|
      invariant stream.Valid() && stream.content == content
      invariant stoppedCleanly && validLength == stream.position
      invariant
        var rest := ScanFrom(c, name, content, stream.position, |content|);
        records + rest.records == all.records && rest.fate == all.fate && rest.validLength == all.validLength
      decreases |content| - stream.position
    {
      var step := stream.TryReadRecord(c, name, |content|);
      match step {
        case Stop => stoppedCleanly := false; break;
        case Throws => return ReadThrew;
        case Record(r) =>
          validLength := stream.position;
          records := records + [r];
      }
    }
    result := ReadResult(records, validLength, stoppedCleanly && validLength == |content|);
  }

  /** Whole records followed by quiet bytes read back as exactly those records, with the
      valid length behind them, and complete exactly when nothing follows. */
  lemma DarkSegment(c: Codec, name: string, es: seq<ShareEvent>, dark: seq<byte>)
    requires Lawful(c) && AllStorable(c, es) && Quiet(c, dark)
    ensures SegmentResult(c, name, Frames(c, es) + dark, 0)
         == ReadResult(Records(c, name, 0, es), |Frames(c, es)|, dark == [])
  {
    hide ScanFrom, Frames, Records, Quiet, AllStorable;
    var content := Frames(c, es) + dark;
    assert content[0..] == content;
    ScanQuiet(c, name, content, 0, |content|, es, dark);
  }

  /** A segment of whole records reads back as exactly those records, complete. */
  lemma WholeSegment(c: Codec, name: string, es: seq<ShareEvent>)
    requires Lawful(c) && AllStorable(c, es)
    ensures SegmentResult(c, name, Frames(c, es), 0) == ReadResult(Records(c, name, 0, es), |Frames(c, es)|, true)
  {
    hide SegmentResult;
    DarkSegment(c, name, es, []);
    assert Frames(c, es) + [] == Frames(c, es);
  }

  /** A segment cut at any byte reads back as the records that fit before the cut,
      with the valid length at the last boundary, and complete exactly when the cut
      is a boundary. */
  lemma CutSegment(c: Codec, name: string, es: seq<ShareEvent>, n: nat)
    requires Lawful(c) && AllStorable(c, es) && n <= |Frames(c, es)|
    ensures
      var m := Fit(c, es, n);
      SegmentResult(c, name, Frames(c, es)[..n], 0)
      == ReadResult(Records(c, name, 0, es[..m]), |Frames(c, es[..m])|, n == |Frames(c, es[..m])|)
  {
    hide SegmentResult, FrameOf, Frames, Quiet, Fit;
    FitSplits(c, es, n);
    var m := Fit(c, es, n);
    var k := n - |Frames(c, es[..m])|;
    if k == 0 {
      WholeSegment(c, name, es[..m]);
    } else {
      TornIsQuiet(c, es[m], k);
      DarkSegment(c, name, es[..m], FrameOf(c, es[m])[..k]);
    }
  }

  /** A record read under one limit is read alike from any longer file and under any
      higher limit. */
  lemma ReadStable(c: Codec, name: string, short: seq<byte>, long: seq<byte>, pos: nat, limit: int, limit': int)
    requires pos <= |short| && short <= long
    requires TryReadAt(c, name, short, pos, limit).Record? && limit <= limit'
    ensures TryReadAt(c, name, long, pos, limit') == TryReadAt(c, name, short, pos, limit)
  {
    hide FromLE32, Fnv1a, ParseHeader;
    var next := TryReadAt(c, name, short, pos, limit).rec.nextOffset;
    assert short[pos..pos + HEADER] == long[pos..pos + HEADER];
    assert short[pos + HEADER..next - 4] == long[pos + HEADER..next - 4];
    assert short[next - 4..next] == long[next - 4..next];
  }

  /** The converse for a file cut off behind the record. */
  lemma ReadCut(c: Codec, name: string, content: seq<byte>, pos: nat, limit: int, cut: nat)
    requires pos <= |content| && cut <= |content|
    requires TryReadAt(c, name, content, pos, limit).Record?
    requires TryReadAt(c, name, content, pos, limit).rec.nextOffset <= cut
    ensures TryReadAt(c, name, content[..cut], pos, cut) == TryReadAt(c, name, content, pos, limit)
  {
    hide FromLE32, Fnv1a, ParseHeader;
    var next := TryReadAt(c, name, content, pos, limit).rec.nextOffset;
    assert content[..cut][pos..pos + HEADER] == content[pos..pos + HEADER];
    assert content[..cut][pos + HEADER..next - 4] == content[pos + HEADER..next - 4];
    assert content[..cut][next - 4..next] == content[next - 4..next];
  }

  /** Whatever a file holds, its beginning up to the valid length is complete and
      has the same records: recovery loses no record a reader could see. */
  lemma {:induction false} ScanCut(c: Codec, name: string, content: seq<byte>, pos: nat)
    requires pos <= |content|
    ensures
      var s := ScanFrom(c, name, content, pos, |content|);
      ScanFrom(c, name, content[..s.validLength], pos, s.validLength)
      == Scan(s.records, s.validLength, ReachedLimit)
    decreases |content| - pos
  {
    hide TryReadAt;
    var step := TryReadAt(c, name, content, pos, |content|);
    if pos < |content| && step.Record? {
      var next := step.rec.nextOffset;
      ScanCut(c, name, content, next);
      var cut := ScanFrom(c, name, content, pos, |content|).validLength;
      ReadCut(c, name, content, pos, |content|, cut);
    }
  }
}
