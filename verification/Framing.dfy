/** The record format of a WAL segment: how a record is laid out in bytes, and
    what the reader makes of any byte sequence. */
module Framing {
  import opened Contracts
  import opened Checksums

  const MAGIC: word := 0x48534556
  const VERSION := 1
  const HEADER := 10

  /** The longest byte[] the .NET runtime allocates. */
  const MAX_ARRAY := 0x7FFF_FFC7

  /** JSON and UTF-8 as an abstract pair. Serialising yields a payload or throws;
      decoding yields an event, the JSON value null, or an exception. */
  datatype Codec = Codec(encode: ShareEvent -> Option<seq<byte>>, decode: seq<byte> -> Decoded)

  datatype Decoded = Value(event: ShareEvent) | Null | Malformed

  /** What is serialised is not empty, fits an array, and is read back. Nothing is said
      about events whose serialisation throws. */
  ghost predicate Lawful(c: Codec) {
    forall e | c.encode(e).Some? ::
      1 <= |c.encode(e).value| <= MAX_ARRAY && c.decode(c.encode(e).value) == Value(e)
  }

  predicate Storable(c: Codec, e: ShareEvent) {
    c.encode(e).Some?
  }

  predicate AllStorable(c: Codec, es: seq<ShareEvent>) {
    forall i | 0 <= i < |es| :: Storable(c, es[i])
  }

  /** The payload written for an event; an event that cannot be serialised has none. */
  function Payload(c: Codec, e: ShareEvent): (p: seq<byte>)
    ensures |p| <= MAX_ARRAY
    ensures Lawful(c) && Storable(c, e) ==> 1 <= |p| && c.decode(p) == Value(e)
  {
    match c.encode(e)
    case Some(p) => if |p| <= MAX_ARRAY then p else []
    case None => []
  }

  datatype OutboxRecord = OutboxRecord(segmentName: string, offset: nat, nextOffset: nat, event: ShareEvent)

  // ---------- Writing ----------

  function Header(payload: seq<byte>): (r: seq<byte>)
    requires |payload| <= MAX_ARRAY
    ensures |r| == HEADER
  {
    LE32(MAGIC) + LE16(VERSION) + LE32(|payload|)
  }

  /** One record: header, payload, checksum. */
  function Frame(payload: seq<byte>): (r: seq<byte>)
    requires |payload| <= MAX_ARRAY
    ensures |r| == HEADER + |payload| + 4
  {
    Header(payload) + payload + LE32(Fnv1a(payload))
  }

  function FrameOf(c: Codec, e: ShareEvent): (r: seq<byte>)
    ensures |r| == HEADER + |Payload(c, e)| + 4
  {
    hide Fnv1a;
    Frame(Payload(c, e))
  }

  function Frames(c: Codec, es: seq<ShareEvent>): seq<byte> {
    if es == [] then [] else FrameOf(c, es[0]) + Frames(c, es[1..])
  }

  /** The records a reader reports for events laid out from `offset` on: each one
      starts where the one before ended. */
  function Records(c: Codec, name: string, offset: nat, es: seq<ShareEvent>): (rs: seq<OutboxRecord>)
    ensures |rs| == |es|
    decreases |es|
  {
    if es == [] then []
    else
      var next := offset + |FrameOf(c, es[0])|;
      [OutboxRecord(name, offset, next, es[0])] + Records(c, name, next, es[1..])
  }

  // ---------- Reading ----------

  datatype ReadStep = Record(rec: OutboxRecord) | Stop | Throws

  /** The payload length a header announces, if magic and version are right. */
  function ParseHeader(h: seq<byte>): (r: Option<int>)
    requires |h| == HEADER
    ensures r.Some? ==> 0 < r.value < 0x8000_0000
  {
    hide FromLE32, FromLE16, ToInt32;
    var length := ToInt32(FromLE32(h[6..10]));
    if FromLE32(h[..4]) != MAGIC || FromLE16(h[4..6]) != VERSION || length <= 0 then None else Some(length)
  }

  /** What one attempt to read a record at `pos` yields. The length test is done
      in 32-bit arithmetic, as in the source; a length no array can have makes
      the allocation throw. */
  function TryReadAt(c: Codec, name: string, content: seq<byte>, pos: nat, limit: int): (r: ReadStep)
    requires pos <= |content|
    ensures r.Record? ==>
      r.rec.segmentName == name && r.rec.offset == pos && pos + HEADER < r.rec.nextOffset <= |content|
    ensures r.Record? ==> r.rec.nextOffset <= limit
  {
    hide FromLE32, Fnv1a, ToInt32, ParseHeader;
    var body := pos + HEADER;
    if |content| < body then Stop
    else
      match ParseHeader(content[pos..body])
      case None => Stop
      case Some(length) =>
        var next := body + length + 4;
        if limit - body < ToInt32(length + 4) then Stop
        else if length > MAX_ARRAY then Throws
        else if |content| < next then Stop
        else
          var payload := content[body..next - 4];
          if FromLE32(content[next - 4..next]) != Fnv1a(payload) then Stop
          else
            match c.decode(payload)
            case Value(e) => Record(OutboxRecord(name, pos, next, e))
            case Null => Stop
            case Malformed => Throws
  }

  datatype Fate = ReachedLimit | Stopped | Threw

  /** The outcome of reading records one after the other. */
  datatype Scan = Scan(records: seq<OutboxRecord>, validLength: nat, fate: Fate)

  function ScanFrom(c: Codec, name: string, content: seq<byte>, pos: nat, limit: int): (s: Scan)
    requires pos <= |content|
    ensures pos <= s.validLength <= |content|
    decreases |content| - pos
  {
    if pos >= limit then Scan([], pos, ReachedLimit)
    else
      match TryReadAt(c, name, content, pos, limit)
      case Stop => Scan([], pos, Stopped)
      case Throws => Scan([], pos, Threw)
      case Record(r) =>
        var rest := ScanFrom(c, name, content, r.nextOffset, limit);
        Scan([r] + rest.records, rest.validLength, rest.fate)
  }

  // ---------- One record ----------

  lemma SliceOfSlice<T>(s: seq<T>, lo: nat, hi: nat, i: nat, j: nat)
    requires lo <= hi <= |s| && i <= j <= hi - lo
    ensures s[lo..hi][i..j] == s[lo + i..lo + j]
  {
    var a, b := s[lo..hi][i..j], s[lo + i..lo + j];
    assert forall k | 0 <= k < |a| :: a[k] == s[lo..hi][i + k] == s[lo + i + k] == b[k];
    assert a == b;
  }

  lemma SliceOfSecond<T>(a: seq<T>, b: seq<T>, i: nat, j: nat)
    requires i <= j <= |b|
    ensures (a + b)[|a| + i..|a| + j] == b[i..j]
  {
  }

  /** Slices of a frame that stands at `pos`. */
  lemma FrameSlices(content: seq<byte>, pos: nat, payload: seq<byte>)
    requires |payload| <= MAX_ARRAY
    requires pos + |Frame(payload)| <= |content|
    requires content[pos..pos + |Frame(payload)|] == Frame(payload)
    ensures content[pos..pos + HEADER] == Header(payload)
    ensures content[pos + HEADER..pos + HEADER + |payload|] == payload
    ensures content[pos + HEADER + |payload|..pos + |Frame(payload)|] == LE32(Fnv1a(payload))
  {
    hide LE16, LE32, FromLE16, FromLE32, Fnv1a, ToInt32, ParseHeader;
    var n, w := |payload|, |Frame(payload)|;
    var f := content[pos..pos + w];
    SliceOfSlice(content, pos, pos + w, 0, HEADER);
    SliceOfSlice(content, pos, pos + w, HEADER, HEADER + n);
    SliceOfSlice(content, pos, pos + w, HEADER + n, w);
    assert f[..HEADER] == Header(payload);
    assert f[HEADER..HEADER + n] == payload;
    assert f[HEADER + n..] == LE32(Fnv1a(payload));
  }

  /** The bytes of a record: magic number, version, length, payload, checksum. */
  lemma FrameIs(payload: seq<byte>)
    requires |payload| <= MAX_ARRAY
    ensures
      var n, sum := |payload|, Fnv1a(payload);
      Frame(payload) == [0x56, 0x45, 0x53, 0x48] + [1, 0]
                        + [n % 256, n / 0x100 % 256, n / 0x1_0000 % 256, n / 0x100_0000]
                        + payload
                        + [sum % 256, sum / 0x100 % 256, sum / 0x1_0000 % 256, sum / 0x100_0000]
  {
    hide Fnv1a, LE32;
    LE32Is(MAGIC);
    LE32Is(|payload|);
    LE32Is(Fnv1a(payload));
    assert LE(1, 2) == [1 % 256] + LE(0, 1);
    assert LE(0, 1) == [0] + LE(0, 0);
  }

  /** A length that no array can have makes reading throw, and the addition of the checksum's
      four bytes wraps around, so that no limit prevents it. */
  lemma HugeLengthThrows(c: Codec, name: string, content: seq<byte>, pos: nat, limit: int)
    requires pos + 10 <= |content| && pos + 10 <= limit
    requires ParseHeader(content[pos..pos + 10]).Some? && ParseHeader(content[pos..pos + 10]).value >= 0x7FFF_FFFC
    ensures TryReadAt(c, name, content, pos, limit) == Throws
  {
    hide ParseHeader, FromLE32, Fnv1a;
  }

  lemma HeaderRoundTrip(payload: seq<byte>)
    requires |payload| <= MAX_ARRAY
    ensures ParseHeader(Header(payload)) == if payload == [] then None else Some(|payload|)
  {
    hide LE16, LE32, FromLE16, FromLE32, ToInt32;
    var h := Header(payload);
    assert h[..4] == LE32(MAGIC);
    assert h[4..6] == LE16(VERSION);
    assert h[6..10] == LE32(|payload|);
    LE32RoundTrip(MAGIC, [0, 0, 0, 0]);
    LE32RoundTrip(|payload|, [0, 0, 0, 0]);
    LE16RoundTrip(VERSION, [0, 0]);
  }

  lemma ParsedIsHeader(h: seq<byte>, payload: seq<byte>)
    requires |h| == HEADER && |payload| <= MAX_ARRAY
    requires ParseHeader(h) == Some(|payload|)
    ensures h == Header(payload)
  {
    hide LE16, LE32, FromLE16, FromLE32;
    LE32RoundTrip(MAGIC, h[..4]);
    LE16RoundTrip(VERSION, h[4..6]);
    LE32RoundTrip(FromLE32(h[6..10]), h[6..10]);
    assert h == h[..4] + h[4..6] + h[6..10];
  }

  /** A frame standing at `pos` is read back, whatever stands around it, whenever
      the limit leaves room for it. */
  lemma ReadsFrame(c: Codec, name: string, content: seq<byte>, pos: nat, limit: int, e: ShareEvent)
    requires Lawful(c) && Storable(c, e)
    requires pos + |FrameOf(c, e)| <= |content| && pos + |FrameOf(c, e)| <= limit
    requires content[pos..pos + |FrameOf(c, e)|] == FrameOf(c, e)
    ensures TryReadAt(c, name, content, pos, limit)
         == Record(OutboxRecord(name, pos, pos + |FrameOf(c, e)|, e))
  {
    hide LE16, LE32, FromLE16, FromLE32, Fnv1a, ToInt32, ParseHeader;
    var payload := Payload(c, e);
    FrameSlices(content, pos, payload);
    HeaderRoundTrip(payload);
    LE32RoundTrip(Fnv1a(payload), [0, 0, 0, 0]);
  }

  /** The converse: whatever the reader accepts is byte for byte a frame whose
      payload decodes to the reported event. */
  lemma AcceptedIsFrame(c: Codec, name: string, content: seq<byte>, pos: nat, limit: int)
    requires pos <= |content|
    requires TryReadAt(c, name, content, pos, limit).Record?
    ensures
      var r := TryReadAt(c, name, content, pos, limit).rec;
      var payload := content[pos + HEADER..r.nextOffset - 4];
      && 1 <= |payload| <= MAX_ARRAY
      && content[pos..r.nextOffset] == Frame(payload)
      && c.decode(payload) == Value(r.event)
  {
    hide LE16, LE32, FromLE16, FromLE32, Fnv1a, ToInt32, ParseHeader;
    var r := TryReadAt(c, name, content, pos, limit).rec;
    var payload := content[pos + HEADER..r.nextOffset - 4];
    var h, sum := content[pos..pos + HEADER], content[r.nextOffset - 4..r.nextOffset];
    ParsedIsHeader(h, payload);
    LE32RoundTrip(Fnv1a(payload), sum);
    assert content[pos..r.nextOffset] == h + payload + sum;
  }

  /** A record cut short anywhere is not read, and nothing is thrown. */
  lemma TornIsStop(c: Codec, name: string, content: seq<byte>, pos: nat, e: ShareEvent)
    requires Lawful(c) && Storable(c, e)
    requires pos < |content| < pos + |FrameOf(c, e)|
    requires content[pos..] == FrameOf(c, e)[..|content| - pos]
    ensures TryReadAt(c, name, content, pos, |content|) == Stop
  {
    hide LE16, LE32, FromLE16, FromLE32, Fnv1a, ToInt32, ParseHeader;
    if |content| - pos >= HEADER {
      var payload := Payload(c, e);
      assert content[pos..pos + HEADER] == content[pos..][..HEADER] == Header(payload);
      HeaderRoundTrip(payload);
    }
  }

  /** Changing any one payload byte of a stored record makes the reader reject it. */
  lemma CorruptPayloadRejected(c: Codec, name: string, content: seq<byte>, pos: nat, limit: int, e: ShareEvent, i: nat, b: byte)
    requires Lawful(c) && Storable(c, e)
    requires pos + |FrameOf(c, e)| <= |content| && pos + |FrameOf(c, e)| <= limit
    requires content[pos..pos + |FrameOf(c, e)|] == FrameOf(c, e)
    requires i < |Payload(c, e)| && b != Payload(c, e)[i]
    ensures TryReadAt(c, name, content[pos + HEADER + i := b], pos, limit) == Stop
  {
    hide LE16, LE32, FromLE16, FromLE32, Fnv1a, ToInt32, ParseHeader;
    var payload := Payload(c, e);
    var bad := content[pos + HEADER + i := b];
    var body := pos + HEADER;
    FrameSlices(content, pos, payload);
    assert bad[pos..body] == content[pos..body];
    HeaderRoundTrip(payload);
    assert bad[body..body + |payload|] == payload[i := b];
    assert bad[body + |payload|..body + |payload| + 4] == content[body + |payload|..body + |payload| + 4];
    LE32RoundTrip(Fnv1a(payload), [0, 0, 0, 0]);
    SingleByteCorruptionDetected(payload, i, b);
  }

  // ---------- Many records ----------

  lemma {:induction false} FramesConcat(c: Codec, xs: seq<ShareEvent>, ys: seq<ShareEvent>)
    ensures Frames(c, xs + ys) == Frames(c, xs) + Frames(c, ys)
    decreases |xs|
  {
    hide Frame, FrameOf;
    if xs == [] {
      assert xs + ys == ys;
    } else {
      assert (xs + ys)[0] == xs[0] && (xs + ys)[1..] == xs[1..] + ys;
      FramesConcat(c, xs[1..], ys);
    }
  }

  lemma {:induction false} RecordsConcat(c: Codec, name: string, offset: nat, xs: seq<ShareEvent>, ys: seq<ShareEvent>)
    ensures Records(c, name, offset, xs + ys)
         == Records(c, name, offset, xs) + Records(c, name, offset + |Frames(c, xs)|, ys)
    decreases |xs|
  {
    hide Frame, FrameOf;
    if xs == [] {
      assert xs + ys == ys;
    } else {
      assert (xs + ys)[0] == xs[0] && (xs + ys)[1..] == xs[1..] + ys;
      RecordsConcat(c, name, offset + |FrameOf(c, xs[0])|, xs[1..], ys);
    }
  }

  /** Record k of a run starts after the frames of the events before it and carries
      event k; the next record starts where it ends. */
  lemma {:induction false} RecordAt(c: Codec, name: string, offset: nat, es: seq<ShareEvent>, k: nat)
    requires k < |es|
    ensures
      var r := Records(c, name, offset, es)[k];
      && r.segmentName == name
      && r.offset == offset + |Frames(c, es[..k])|
      && r.nextOffset == offset + |Frames(c, es[..k + 1])|
      && r.event == es[k]
    decreases k
  {
    hide Frame, FrameOf;
    if k == 0 {
      assert es[..1] == [es[0]] && es[..0] == [];
      assert Frames(c, es[..1]) == FrameOf(c, es[0]) + Frames(c, []);
    } else {
      RecordAt(c, name, offset + |FrameOf(c, es[0])|, es[1..], k - 1);
      assert es[..k][1..] == es[1..][..k - 1] && es[..k + 1][1..] == es[1..][..k];
    }
  }

  lemma FrontOfRun(c: Codec, content: seq<byte>, pos: nat, es: seq<ShareEvent>)
    requires es != [] && pos + |Frames(c, es)| <= |content|
    requires content[pos..pos + |Frames(c, es)|] == Frames(c, es)
    ensures
      var next, end := pos + |FrameOf(c, es[0])|, pos + |Frames(c, es)|;
      && end == next + |Frames(c, es[1..])|
      && content[pos..next] == FrameOf(c, es[0])
      && content[next..end] == Frames(c, es[1..])
  {
    FramesHead(c, es);
    hide FrameOf, Frames;
    SlicesOfSum(content, pos, FrameOf(c, es[0]), Frames(c, es[1..]));
  }

  lemma SlicesOfSum<T>(s: seq<T>, pos: nat, a: seq<T>, b: seq<T>)
    requires pos + |a| + |b| <= |s| && s[pos..pos + |a| + |b|] == a + b
    ensures s[pos..pos + |a|] == a && s[pos + |a|..pos + |a| + |b|] == b
  {
    var body := s[pos..pos + |a| + |b|];
    assert s[pos..pos + |a|] == body[..|a|] && s[pos + |a|..pos + |a| + |b|] == body[|a|..];
  }

  lemma TakeFront<T>(a: seq<T>, b: seq<T>, n: nat)
    requires n <= |a|
    ensures (a + b)[..n] == a[..n]
  {
  }

  /** Framing round trip: from the boundary before `es` to the boundary after it the
      reader returns exactly `es`, whatever stands before, and whatever has been
      appended behind the limit in the meantime. */
  lemma {:induction false} ScanFrames(c: Codec, name: string, content: seq<byte>, pos: nat, es: seq<ShareEvent>)
    requires Lawful(c) && AllStorable(c, es)
    requires pos + |Frames(c, es)| <= |content|
    requires content[pos..pos + |Frames(c, es)|] == Frames(c, es)
    ensures ScanFrom(c, name, content, pos, pos + |Frames(c, es)|)
         == Scan(Records(c, name, pos, es), pos + |Frames(c, es)|, ReachedLimit)
    decreases |es|
  {
    hide Frame, FrameOf, TryReadAt, Payload;
    if es != [] {
      var limit := pos + |Frames(c, es)|;
      var next := pos + |FrameOf(c, es[0])|;
      FrontOfRun(c, content, pos, es);
      ReadsFrame(c, name, content, pos, limit, es[0]);
      ScanFrames(c, name, content, next, es[1..]);
    }
  }

  /** Whole records, then bytes the reader stops at: exactly the whole records. */
  lemma {:induction false} ScanThenStop(c: Codec, name: string, content: seq<byte>, pos: nat, limit: int, es: seq<ShareEvent>)
    requires Lawful(c) && AllStorable(c, es)
    requires pos + |Frames(c, es)| <= |content| && pos + |Frames(c, es)| < limit
    requires content[pos..pos + |Frames(c, es)|] == Frames(c, es)
    requires TryReadAt(c, name, content, pos + |Frames(c, es)|, limit) == Stop
    ensures ScanFrom(c, name, content, pos, limit) == Scan(Records(c, name, pos, es), pos + |Frames(c, es)|, Stopped)
    decreases |es|
  {
    hide Frame, FrameOf, TryReadAt, Payload;
    if es != [] {
      var next := pos + |FrameOf(c, es[0])|;
      FrontOfRun(c, content, pos, es);
      ReadsFrame(c, name, content, pos, limit, es[0]);
      ScanThenStop(c, name, content, next, limit, es[1..]);
    }
  }

  // ---------- Bytes no reader gets past ----------

  /** However much of these bytes is there, the reader stops at their start. */
  predicate Quiet(c: Codec, dark: seq<byte>) {
    forall n | 0 < n <= |dark| :: TryReadAt(c, "", dark[..n], 0, n) == Stop
  }

  lemma QuietPart(c: Codec, dark: seq<byte>, n: nat)
    requires Quiet(c, dark) && n <= |dark|
    ensures Quiet(c, dark[..n])
  {
    hide TryReadAt;
    forall m | 0 < m <= n ensures TryReadAt(c, "", dark[..n][..m], 0, m) == Stop {
      assert dark[..n][..m] == dark[..m];
    }
  }

  /** A record cut short anywhere is quiet. */
  lemma TornIsQuiet(c: Codec, e: ShareEvent, k: nat)
    requires Lawful(c) && Storable(c, e) && k < |FrameOf(c, e)|
    ensures Quiet(c, FrameOf(c, e)[..k])
  {
    hide FrameOf, TryReadAt;
    var f := FrameOf(c, e);
    forall n | 0 < n <= k ensures TryReadAt(c, "", f[..k][..n], 0, n) == Stop {
      var part := f[..k][..n];
      assert part == f[..n] && part[0..] == part;
      TornIsStop(c, "", part, 0, e);
    }
  }

  /** Quiet bytes stop the reader under every limit, and whatever is behind them. */
  lemma QuietStops(c: Codec, name: string, content: seq<byte>, pos: nat, limit: nat, dark: seq<byte>)
    requires pos < limit <= |content| && content[pos..] == dark && Quiet(c, dark)
    ensures TryReadAt(c, name, content, pos, limit) == Stop
  {
    hide FromLE32, FromLE16, Fnv1a, ToInt32, ParseHeader;
    var n, body := limit - pos, pos + HEADER;
    assert TryReadAt(c, "", dark[..n], 0, n) == Stop;
    assert dark[..|dark|] == dark;
    if body <= |content| {
      assert content[pos..body] == dark[0..HEADER];
      match ParseHeader(content[pos..body])
      case None =>
      case Some(length) =>
        var next := HEADER + length + 4;
        if next <= n {
          assert dark[0..n] == dark[..n] && content[pos..|content|] == content[pos..];
          SliceOfSlice(dark, 0, n, 0, HEADER);
          SliceOfSlice(dark, 0, n, HEADER, next - 4);
          SliceOfSlice(dark, 0, n, next - 4, next);
          SliceOfSlice(content, pos, |content|, HEADER, next - 4);
          SliceOfSlice(content, pos, |content|, next - 4, next);
        }
    }
  }

  /** Whole records, and then what is quiet, read under any limit behind the records. */
  lemma ScanQuiet(c: Codec, name: string, content: seq<byte>, pos: nat, limit: nat, es: seq<ShareEvent>, behind: seq<byte>)
    requires Lawful(c) && AllStorable(c, es)
    requires pos <= |content| && content[pos..] == Frames(c, es) + behind
    requires pos + |Frames(c, es)| <= limit <= |content|
    requires limit > pos + |Frames(c, es)| ==> Quiet(c, behind)
    ensures ScanFrom(c, name, content, pos, limit)
         == Scan(Records(c, name, pos, es), pos + |Frames(c, es)|,
                 if limit == pos + |Frames(c, es)| then ReachedLimit else Stopped)
  {
    hide TryReadAt, Frames, Records, FrameOf, ScanFrom, AllStorable, Quiet;
    var n := pos + |Frames(c, es)|;
    assert content[pos..n] == content[pos..][..|Frames(c, es)|] == Frames(c, es);
    assert content[n..] == content[pos..][|Frames(c, es)|..] == behind;
    if limit == n {
      ScanFrames(c, name, content, pos, es);
    } else {
      QuietStops(c, name, content, n, limit, behind);
      ScanThenStop(c, name, content, pos, limit, es);
    }
  }

  /** A header without its payload, and what was written behind it: a reader takes the
      next bytes for the payload, and stops unless there are enough of them and the
      word after them happens to be their checksum. */
  lemma TornHeaderQuiet(c: Codec, payload: seq<byte>, behind: seq<byte>)
    requires 1 <= |payload| <= MAX_ARRAY
    ensures
      var n := |payload|;
      Quiet(c, Header(payload) + behind) <==>
        |behind| < n + 4 || FromLE32(behind[n..n + 4]) != Fnv1a(behind[..n]) || c.decode(behind[..n]) == Null
  {
    hide Header, FromLE32, FromLE16, Fnv1a, ToInt32, ParseHeader;
    var dark, n := Header(payload) + behind, |payload|;
    HeaderRoundTrip(payload);
    forall m | 0 < m <= |dark| ensures TryReadAt(c, "", dark[..m], 0, m) == Stop <==>
      m < HEADER + n + 4 || FromLE32(behind[n..n + 4]) != Fnv1a(behind[..n]) || c.decode(behind[..n]) == Null
    {
      assert dark[0..m] == dark[..m];
      if HEADER <= m {
        SliceOfSlice(dark, 0, m, 0, HEADER);
        assert dark[0..HEADER] == Header(payload);
      }
      if HEADER + n + 4 <= m {
        SliceOfSlice(dark, 0, m, HEADER, HEADER + n);
        SliceOfSlice(dark, 0, m, HEADER + n, HEADER + n + 4);
        SliceOfSecond(Header(payload), behind, 0, n);
        SliceOfSecond(Header(payload), behind, n, n + 4);
      }
    }
    assert |behind| >= n + 4 ==> TryReadAt(c, "", dark[..|dark|], 0, |dark|) == Stop || !Quiet(c, dark);
  }

  /** A header and its payload without the checksum: the first word behind is taken for
      it. When that is the magic of another record, the reader stops unless the
      checksum happens to equal the magic. */
  lemma TornPayloadQuiet(c: Codec, e: ShareEvent, behind: seq<byte>)
    requires Lawful(c) && Storable(c, e)
    ensures
      var payload := Payload(c, e);
      Quiet(c, Header(payload) + payload + behind) <==> |behind| < 4 || FromLE32(behind[..4]) != Fnv1a(payload)
  {
    hide Header, FromLE32, Fnv1a, Quiet, Payload;
    var payload := Payload(c, e);
    TornHeaderQuiet(c, payload, payload + behind);
    assert Header(payload) + (payload + behind) == Header(payload) + payload + behind;
    var n := |payload|;
    assert (payload + behind)[..n] == payload;
    if |behind| >= 4 { assert (payload + behind)[n..n + 4] == behind[..4]; }
  }

  lemma FrameStartsWithMagic(payload: seq<byte>)
    requires |payload| <= MAX_ARRAY
    ensures Frame(payload)[..4] == LE32(MAGIC)
  {
    hide LE32, LE16, Fnv1a;
    TakeFront(Header(payload) + payload, LE32(Fnv1a(payload)), 4);
    TakeFront(Header(payload), payload, 4);
    TakeFront(LE32(MAGIC) + LE16(VERSION), LE32(|payload|), 4);
    TakeFront(LE32(MAGIC), LE16(VERSION), 4);
    assert LE32(MAGIC)[..4] == LE32(MAGIC);
  }

  lemma FramesStartWithMagic(c: Codec, es: seq<ShareEvent>, behind: seq<byte>)
    requires es != []
    ensures |Frames(c, es) + behind| >= 4 && FromLE32((Frames(c, es) + behind)[..4]) == MAGIC
  {
    hide LE32, LE16, FromLE32, Fnv1a, Payload;
    var f := FrameOf(c, es[0]);
    FramesHead(c, es);
    FrameStartsWithMagic(Payload(c, es[0]));
    hide FrameOf, Frames;
    TakeFront(f, Frames(c, es[1..]), 4);
    TakeFront(Frames(c, es), behind, 4);
    LE32RoundTrip(MAGIC, [0, 0, 0, 0]);
  }

  // ---------- Cutting a run of records at a byte ----------

  /** How many of the records fit in the first `n` bytes. */
  function Fit(c: Codec, es: seq<ShareEvent>, n: nat): (m: nat)
    ensures m <= |es|
  {
    if es == [] || n < |FrameOf(c, es[0])| then 0
    else 1 + Fit(c, es[1..], n - |FrameOf(c, es[0])|)
  }

  lemma FramesTake(c: Codec, es: seq<ShareEvent>, m: nat)
    requires 0 < m <= |es|
    ensures Frames(c, es[..m]) == FrameOf(c, es[0]) + Frames(c, es[1..][..m - 1])
  {
    hide FrameOf;
    assert es[..m][1..] == es[1..][..m - 1];
  }

  lemma {:induction false} FitLength(c: Codec, es: seq<ShareEvent>, n: nat)
    requires n <= |Frames(c, es)|
    ensures
      var m := Fit(c, es, n);
      && |Frames(c, es[..m])| <= n
      && (if m == |es| then n == |Frames(c, es)| else n < |Frames(c, es[..m])| + |FrameOf(c, es[m])|)
    decreases |es|
  {
    hide FrameOf;
    var m := Fit(c, es, n);
    if m == 0 {
      assert es[..0] == [];
    } else {
      FitLength(c, es[1..], n - |FrameOf(c, es[0])|);
      FramesTake(c, es, m);
    }
  }

  /** Any beginning of a run of records is the records that fit, then a proper
      beginning of the next one. */
  lemma FitSplits(c: Codec, es: seq<ShareEvent>, n: nat)
    requires n <= |Frames(c, es)|
    ensures
      var m := Fit(c, es, n);
      var k := n - |Frames(c, es[..m])|;
      && |Frames(c, es[..m])| <= n
      && (m == |es| ==> k == 0)
      && (m < |es| ==>
            && k < |FrameOf(c, es[m])|
            && Frames(c, es)[..n] == Frames(c, es[..m]) + FrameOf(c, es[m])[..k])
      && (k == 0 ==> Frames(c, es)[..n] == Frames(c, es[..m]))
  {
    hide Frame, FrameOf, Frames, Fit;
    FitLength(c, es, n);
    var m := Fit(c, es, n);
    assert es == es[..m] + es[m..];
    FramesConcat(c, es[..m], es[m..]);
    if m == |es| {
      assert es[..m] == es && Frames(c, es)[..n] == Frames(c, es);
    } else {
      FramesHead(c, es[m..]);
      TakeWithin(Frames(c, es[..m]), FrameOf(c, es[m]), Frames(c, es[m..][1..]), n);
    }
  }

  lemma FramesHead(c: Codec, es: seq<ShareEvent>)
    requires es != []
    ensures Frames(c, es) == FrameOf(c, es[0]) + Frames(c, es[1..])
  {
  }

  lemma OneFrame(c: Codec, e: ShareEvent)
    ensures Frames(c, [e]) == FrameOf(c, e)
  {
    hide FrameOf;
    assert [e][1..] == [];
    assert FrameOf(c, e) + [] == FrameOf(c, e);
  }

  lemma TakeWithin<T>(a: seq<T>, f: seq<T>, rest: seq<T>, n: nat)
    requires |a| <= n < |a| + |f|
    ensures (a + (f + rest))[..n] == a + f[..n - |a|]
    ensures n == |a| ==> (a + (f + rest))[..n] == a
  {
  }

  /** A boundary fits exactly the records before it. */
  lemma {:induction false} FitAtBoundary(c: Codec, es: seq<ShareEvent>, k: nat)
    requires k <= |es|
    ensures Fit(c, es, |Frames(c, es[..k])|) == k
    decreases k
  {
    hide Frame, FrameOf;
    if k > 0 {
      assert es[..k][1..] == es[1..][..k - 1];
      FitAtBoundary(c, es[1..], k - 1);
    } else {
      assert es[..0] == [];
    }
  }

  lemma {:induction false} FitMonotone(c: Codec, es: seq<ShareEvent>, n: nat, n': nat)
    requires n <= n'
    ensures Fit(c, es, n) <= Fit(c, es, n')
    decreases |es|
  {
    hide Frame, FrameOf;
    if es != [] && n >= |FrameOf(c, es[0])| {
      FitMonotone(c, es[1..], n - |FrameOf(c, es[0])|, n' - |FrameOf(c, es[0])|);
    }
  }

  // ---------- A codec ----------

  /** An event that is nothing but its id. */
  function Sample(id: string): ShareEvent {
    ShareEvent(id, ShareAccepted, "pool", "miner", "worker", "node", 0, None, 1.0, 1.0, 1.0, "", "", "", "", 0.0, "")
  }

  function Text(b: seq<byte>): (s: string)
    ensures |s| == |b|
  {
    seq(|b|, i requires 0 <= i < |b| => b[i] as char)
  }

  predicate IsText(s: string) {
    1 <= |s| <= MAX_ARRAY && forall i | 0 <= i < |s| :: s[i] as int < 256
  }

  function Bytes(s: string): (b: seq<byte>)
    requires IsText(s)
    ensures |b| == |s|
  {
    seq(|s|, i requires 0 <= i < |s| => s[i] as int)
  }

  /** Serialises the id of a sample byte by byte, and throws on any other event. */
  const SAMPLE_CODEC := Codec(
    (e: ShareEvent) => if IsText(e.eventId) && e == Sample(e.eventId) then Some(Bytes(e.eventId)) else None,
    (b: seq<byte>) => Value(Sample(Text(b))))

  /** The laws asked of a codec can be met, with as many events as there are texts. */
  lemma SampleCodecIsLawful()
    ensures Lawful(SAMPLE_CODEC)
    ensures forall s: string | IsText(s) :: Storable(SAMPLE_CODEC, Sample(s))
  {
    forall e | SAMPLE_CODEC.encode(e).Some? ensures SAMPLE_CODEC.decode(SAMPLE_CODEC.encode(e).value) == Value(e) {
      assert Text(Bytes(e.eventId)) == e.eventId;
    }
  }
}
