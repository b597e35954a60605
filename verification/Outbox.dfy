/** FileShareEventOutbox: appending, rotating, reading from the checkpoint and
    advancing it, on a directory of segment files. */
module Outbox {
  import opened Contracts
  import opened Cancellation
  import opened Checksums
  import opened Framing
  import opened SegmentNames
  import opened Reader
  import opened Log
  import opened Wal

  datatype AppendOutcome = Appended | Cancelled | Rejected

  // ---------- Batches ----------

  /** What the limits on the text of a batch count. */
  function Size(jsonLength: ShareEvent -> nat, events: seq<ShareEvent>): (n: nat) {
    if events == [] then 0 else Size(jsonLength, events[..|events| - 1]) + Max(128, jsonLength(events[|events| - 1]))
  }

  lemma SizeSnoc(jsonLength: ShareEvent -> nat, events: seq<ShareEvent>, e: ShareEvent)
    ensures Size(jsonLength, []) == 0
    ensures Size(jsonLength, events + [e]) == Size(jsonLength, events) + if jsonLength(e) < 128 then 128 else jsonLength(e)
  {
    assert (events + [e])[..|events|] == events;
  }

  // ---------- What an append does, whenever it is cancelled ----------

  /** Events without an id, and events whose serialisation throws, end an append. */
  predicate Accepted(c: Codec, e: ShareEvent) {
    !IsBlank(e.eventId) && Storable(c, e)
  }

  function LeadingValid(c: Codec, events: seq<ShareEvent>): (n: nat)
    ensures n <= |events|
    ensures forall i | 0 <= i < n :: Accepted(c, events[i])
    ensures n < |events| ==> !Accepted(c, events[n])
  {
    if events == [] || !Accepted(c, events[0]) then 0 else 1 + LeadingValid(c, events[1..])
  }

  /** The token is looked at once for the gate, four times for each record, and once
      more for an ordinary flush. */
  function RecordsWritten(looks: nat, valid: nat): (n: nat)
    ensures n <= valid
  {
    if looks == 0 then 0 else Min((looks - 1) / 4, valid)
  }

  /** Whether the token is cancelled between the three writes of a record. */
  predicate Tears(looks: nat, valid: nat) {
    looks > 0 && RecordsWritten(looks, valid) < valid && (looks - 1) % 4 >= 2
  }

  /** How much of that record is then written. */
  function TornLength(c: Codec, looks: nat, e: ShareEvent): nat {
    if looks > 0 && (looks - 1) % 4 == 2 then HEADER else HEADER + |Payload(c, e)|
  }

  /** The segments when a record was cancelled after so many of its three writes. */
  function InRecord(c: Codec, room: seq<Chunk>, e: ShareEvent, writes: nat): (r: seq<Chunk>)
    requires |room| > 0
  {
    if writes == 0 then room
    else Darken(room, FrameOf(c, e)[..if writes == 1 then HEADER else HEADER + |Payload(c, e)|])
  }

  /** The segments after an append: whole records up to the cancellation, a segment opened
      for the next one if the cancellation came that late, and its first bytes. */
  function Appending(c: Codec, max: int, chunks: seq<Chunk>, events: seq<ShareEvent>, looks: nat): (r: seq<Chunk>)
    requires |chunks| > 0
    ensures |r| > 0
  {
    var n := LeadingValid(c, events);
    var w := RecordsWritten(looks, n);
    var r := PutAll(c, max, chunks, events[..w]);
    if looks == 0 || w == n || (looks - 1) % 4 == 0 then r
    else
      var room := MakeRoom(c, max, r, events[w]);
      if Tears(looks, n) then Darken(room, FrameOf(c, events[w])[..TornLength(c, looks, events[w])]) else room
  }

  lemma AppendingNothing(c: Codec, max: int, chunks: seq<Chunk>, events: seq<ShareEvent>)
    requires |chunks| > 0
    ensures Appending(c, max, chunks, events, 0) == chunks
  {
  }

  /** What is there when `i` records are written and `looks` more looks at the token find it
      live: none, so many writes of the next record, or that record is refused. */
  lemma AppendingAt(c: Codec, max: int, chunks: seq<Chunk>, events: seq<ShareEvent>, looks: nat, i: nat)
    requires |chunks| > 0 && i <= LeadingValid(c, events)
    ensures
      var r, now := PutAll(c, max, chunks, events[..i]), Appending(c, max, chunks, events, 4 * i + looks + 1);
      && (looks == 0 || i == LeadingValid(c, events) ==> now == r)
      && (1 <= looks < 4 && i < LeadingValid(c, events) ==>
            now == InRecord(c, MakeRoom(c, max, r, events[i]), events[i], looks - 1))
  {
    hide PutAll, MakeRoom, Darken, FrameOf, LeadingValid, Payload;
  }

  /** A first, empty segment changes nothing for the checkpoint. */
  lemma FirstChunk(c: Codec, chunks: seq<Chunk>, cp: Checkpoint, at: nat)
    requires chunks == [] && StandsAt(c, chunks, cp, at)
    ensures StandsAt(c, [Chunk(1, [], [])], cp, at) && Sound(c, [Chunk(1, [], [])])
  {
    Singleton(c, Chunk(1, [], []));
    NothingIsQuiet(c);
    assert AllRecords(c, chunks) == [];
    assert ChunkRecords(c, Chunk(1, [], [])) == [];
  }

  lemma PutNone(c: Codec, max: int, chunks: seq<Chunk>, es: seq<ShareEvent>)
    requires |chunks| > 0 && es == []
    ensures PutAll(c, max, chunks, es) == chunks
  {
  }

  lemma PutNext(c: Codec, max: int, chunks: seq<Chunk>, es: seq<ShareEvent>, i: nat)
    requires |chunks| > 0 && i < |es|
    ensures PutAll(c, max, chunks, es[..i + 1]) == Put(c, max, PutAll(c, max, chunks, es[..i]), es[i])
  {
    hide Put;
    assert es[..i + 1][..i] == es[..i];
  }

  /** A file deleted from the directory: the first of the listing with that name. */
  function Remove(segments: seq<Segment>, name: string): seq<Segment> {
    if segments == [] then []
    else if SegmentName(segments[0].index) == name then segments[1..]
    else [segments[0]] + Remove(segments[1..], name)
  }

  /** The bytes of the file with that name. */
  function FileContent(segments: seq<Segment>, name: string): seq<byte> {
    if segments == [] then []
    else if SegmentName(segments[0].index) == name then segments[0].bytes
    else FileContent(segments[1..], name)
  }

  // ---------- Snapshots ----------

  /** Which stretch of which file is to be read. */
  datatype SegmentSnapshot = SegmentSnapshot(name: string, startOffset: nat, endOffset: nat)

  /** What a stretch stands for: the records of a segment, as it was, from the k-th on. */
  datatype Mark = Mark(chunk: Chunk, k: nat)

  predicate Denotes(c: Codec, s: SegmentSnapshot, m: Mark) {
    && m.k <= |m.chunk.events|
    && s.name == SegmentName(m.chunk.index)
    && s.startOffset == |Frames(c, m.chunk.events[..m.k])|
    && s.endOffset == |Content(c, m.chunk)|
  }

  function Marked(c: Codec, marks: seq<Mark>): seq<OutboxRecord>
    requires forall i | 0 <= i < |marks| :: marks[i].k <= |marks[i].chunk.events|
  {
    if marks == [] then [] else ChunkRecords(c, marks[0].chunk)[marks[0].k..] + Marked(c, marks[1..])
  }

  lemma {:induction false} MarkedSnoc(c: Codec, marks: seq<Mark>, m: Mark)
    requires forall i | 0 <= i < |marks| :: marks[i].k <= |marks[i].chunk.events|
    requires m.k <= |m.chunk.events|
    ensures Marked(c, marks + [m]) == Marked(c, marks) + ChunkRecords(c, m.chunk)[m.k..]
    decreases |marks|
  {
    hide ChunkRecords;
    if marks == [] {
      assert [m][1..] == [];
      assert ChunkRecords(c, m.chunk)[m.k..] + [] == ChunkRecords(c, m.chunk)[m.k..];
      assert marks + [m] == [m];
    } else {
      assert (marks + [m])[1..] == marks[1..] + [m];
      MarkedSnoc(c, marks[1..], m);
    }
  }

  predicate SnapshotOf(c: Codec, snapshot: seq<SegmentSnapshot>, marks: seq<Mark>, chunks: seq<Chunk>, cp: Checkpoint) {
    && |marks| == |snapshot|
    && (forall j | 0 <= j < |snapshot| :: Denotes(c, snapshot[j], marks[j]) && marks[j].chunk in chunks)
    && Marked(c, marks) == Snapshot(c, chunks, cp)
  }

  lemma NothingMarked(c: Codec)
    ensures Marked(c, []) == []
  {
  }

  lemma Regroup<T>(a: seq<T>, b: seq<T>, c: seq<T>)
    ensures (a + b) + c == a + (b + c)
    ensures b == [] ==> a + (b + c) == a + c
  {
  }

  lemma NoSnapshot(c: Codec, chunks: seq<Chunk>, cp: Checkpoint)
    requires chunks == []
    ensures Snapshot(c, chunks, cp) == []
  {
  }

  /** What one segment of the listing contributes to a snapshot. */
  lemma SnapshotHead(c: Codec, chunks: seq<Chunk>, cp: Checkpoint, at: nat, i: nat) returns (m: Mark)
    requires Ascending(chunks) && StandsAt(c, chunks, cp, at) && i < |chunks|
    ensures m.chunk == chunks[i] && m.k <= |m.chunk.events|
    ensures
      var name, length := SegmentName(chunks[i].index), |Content(c, chunks[i])|;
      var start := if name == cp.segmentName then cp.offset else 0;
      var rest := Snapshot(c, chunks[i + 1..], cp);
      if cp.segmentName != "" && OrdinalLess(name, cp.segmentName) then Snapshot(c, chunks[i..], cp) == rest
      else
        && Snapshot(c, chunks[i..], cp) == ChunkRecords(c, chunks[i])[m.k..] + rest
        && Denotes(c, SegmentSnapshot(name, start, length), m)
        && start <= length
        && (start == length ==> ChunkRecords(c, chunks[i])[m.k..] == [])
  {
    hide FrameOf, SegmentName, OrdinalLess, AllRecords, Records, Fit, Frames;
    var k, name := chunks[i], SegmentName(chunks[i].index);
    var start := if name == cp.segmentName then cp.offset else 0;
    assert chunks[i..][0] == k && chunks[i..][1..] == chunks[i + 1..];
    var b := BoundaryOf(c, chunks, cp, at, i, start);
    FitAtBoundary(c, k.events, b);
    BoundaryLength(c, k.events, b);
    m := Mark(k, b);
  }

  lemma BoundaryLength(c: Codec, es: seq<ShareEvent>, b: nat)
    requires b <= |es|
    ensures |Frames(c, es[..b])| <= |Frames(c, es)|
    ensures |Frames(c, es[..b])| == |Frames(c, es)| ==> b == |es|
  {
    hide FrameOf, Frames;
    assert es == es[..b] + es[b..];
    FramesConcat(c, es[..b], es[b..]);
    if b < |es| {
      FramesHead(c, es[b..]);
      assert |FrameOf(c, es[b])| > 0;
    }
  }

  /** The number of records before the offset a snapshot starts from. */
  lemma BoundaryOf(c: Codec, chunks: seq<Chunk>, cp: Checkpoint, at: nat, i: nat, start: nat) returns (k: nat)
    requires Ascending(chunks) && StandsAt(c, chunks, cp, at) && i < |chunks|
    requires start == if SegmentName(chunks[i].index) == cp.segmentName then cp.offset else 0
    ensures k <= |chunks[i].events| && start == |Frames(c, chunks[i].events[..k])|
  {
    if SegmentName(chunks[i].index) == cp.segmentName {
      k := SavedOffsetIsBoundary(c, chunks, cp, at, i);
    } else {
      k := 0;
      assert chunks[i].events[..0] == [];
    }
  }

  /** A checkpoint stays where it is when records are added behind. */
  lemma StandsLonger(c: Codec, chunks: seq<Chunk>, r: seq<Chunk>, cp: Checkpoint, at: nat)
    requires StandsAt(c, chunks, cp, at)
    requires AllRecords(c, chunks) <= AllRecords(c, r)
    ensures StandsAt(c, r, cp, at)
  {
    hide AllRecords;
  }

  /** A segment later on: the same, or longer. What is dark stays dark. */
  predicate Grown(c: Codec, k: Chunk, later: Chunk) {
    && later.index == k.index
    && Content(c, k) <= Content(c, later)
    && (if k.dark == [] then k.events <= later.events else k.events == later.events && k.dark <= later.dark)
  }

  predicate AllGrown(c: Codec, chunks: seq<Chunk>, later: seq<Chunk>) {
    |chunks| <= |later| && forall i | 0 <= i < |chunks| :: Grown(c, chunks[i], later[i])
  }

  lemma GrownAgain(c: Codec, a: seq<Chunk>, b: seq<Chunk>, d: seq<Chunk>)
    requires AllGrown(c, a, b) && AllGrown(c, b, d)
    ensures AllGrown(c, a, d)
  {
    hide Content;
    forall i | 0 <= i < |a| ensures Grown(c, a[i], d[i]) {
      assert Grown(c, a[i], b[i]) && Grown(c, b[i], d[i]);
      if a[i].dark == [] && b[i].dark != [] { assert a[i].events <= d[i].events; }
    }
  }

  lemma NotGrown(c: Codec, chunks: seq<Chunk>)
    ensures AllGrown(c, chunks, chunks)
  {
  }

  lemma PutGrows(c: Codec, max: int, chunks: seq<Chunk>, e: ShareEvent)
    requires |chunks| > 0
    ensures AllGrown(c, chunks, Put(c, max, chunks, e))
  {
    hide FrameOf, Frames;
    var r, k := Put(c, max, chunks, e), |chunks| - 1;
    var last := chunks[k];
    if |r| == |chunks| && last.dark == [] {
      FramesConcat(c, last.events, [e]);
      assert Content(c, r[k]) == Frames(c, last.events) + (Frames(c, [e]) + []);
    }
  }

  lemma {:induction false} PutAllGrows(c: Codec, max: int, chunks: seq<Chunk>, es: seq<ShareEvent>)
    requires |chunks| > 0
    ensures AllGrown(c, chunks, PutAll(c, max, chunks, es))
    decreases |es|
  {
    hide Put, AllGrown;
    if es == [] {
      NotGrown(c, chunks);
    } else {
      var init := es[..|es| - 1];
      PutAllGrows(c, max, chunks, init);
      PutGrows(c, max, PutAll(c, max, chunks, init), es[|es| - 1]);
      GrownAgain(c, chunks, PutAll(c, max, chunks, init), PutAll(c, max, chunks, es));
    }
  }

  /** Whenever it is cancelled, an append only adds to the segments there are. */
  lemma AppendingGrows(c: Codec, max: int, chunks: seq<Chunk>, events: seq<ShareEvent>, looks: nat)
    requires |chunks| > 0
    ensures AllGrown(c, chunks, Appending(c, max, chunks, events, looks))
  {
    hide PutAll, FrameOf, Frames;
    var w := RecordsWritten(looks, LeadingValid(c, events));
    var r := PutAll(c, max, chunks, events[..w]);
    PutAllGrows(c, max, chunks, events[..w]);
    NotGrown(c, r);
    GrownAgain(c, chunks, r, Appending(c, max, chunks, events, looks));
  }

  /** At most one segment is opened for each event. */
  lemma AppendingIndex(c: Codec, max: int, chunks: seq<Chunk>, events: seq<ShareEvent>, looks: nat)
    requires |chunks| > 0 && Ascending(chunks) && chunks[|chunks| - 1].index + |events| < LONG_LIMIT
    ensures
      var r := Appending(c, max, chunks, events, looks);
      r[|r| - 1].index <= chunks[|chunks| - 1].index + |events| && |r| <= |chunks| + |events|
  {
    hide PutAll, Content, FrameOf, LeadingValid, Payload, Ascending;
    PutAllAscending(c, max, chunks, events[..RecordsWritten(looks, LeadingValid(c, events))]);
  }

  /** And it changes no record there is. */
  lemma AppendingRecords(c: Codec, max: int, chunks: seq<Chunk>, events: seq<ShareEvent>, looks: nat)
    requires |chunks| > 0
    ensures
      var r := Appending(c, max, chunks, events, looks);
      var written := events[..RecordsWritten(looks, LeadingValid(c, events))];
      && AllRecords(c, chunks) <= AllRecords(c, r)
      && Flat(r) == Flat(chunks) + written[Hidden(c, max, chunks, written)..]
  {
    hide PutAll, Hidden, AllRecords, Flat, FrameOf, MakeRoom, Darken, LeadingValid;
    var n := LeadingValid(c, events);
    var w := RecordsWritten(looks, n);
    PutAllRecords(c, max, chunks, events[..w]);
    if w < n {
      var r := PutAll(c, max, chunks, events[..w]);
      RoomRecords(c, max, r, events[w]);
      var room := MakeRoom(c, max, r, events[w]);
      DarkenKeeps(c, room, FrameOf(c, events[w])[..if Tears(looks, n) then TornLength(c, looks, events[w]) else 0]);
    }
  }

  /** What grew from it and disturbs no reader did not before. */
  lemma SoundBefore(c: Codec, a: seq<Chunk>, b: seq<Chunk>)
    requires AllGrown(c, a, b) && Sound(c, b)
    ensures Sound(c, a)
  {
    hide Content, Quiet;
    NothingIsQuiet(c);
    forall i | 0 <= i < |a| ensures AllStorable(c, a[i].events) && Quiet(c, a[i].dark) {
      assert Grown(c, a[i], b[i]);
      if a[i].dark != [] {
        QuietPart(c, b[i].dark, |a[i].dark|);
        assert b[i].dark[..|a[i].dark|] == a[i].dark;
      }
    }
  }

  /** Nor does it disturb a reader, when nothing was dark before. */
  lemma AppendingSound(c: Codec, max: int, chunks: seq<Chunk>, events: seq<ShareEvent>, looks: nat)
    requires |chunks| > 0 && Lawful(c) && Sound(c, chunks) && !Dark(chunks)
    ensures Sound(c, Appending(c, max, chunks, events, looks))
  {
    hide PutAll, FrameOf, Quiet, Content, Payload;
    var n := LeadingValid(c, events);
    var w := RecordsWritten(looks, n);
    assert AllStorable(c, events[..w]);
    PutAllSound(c, max, chunks, events[..w]);
    var r := PutAll(c, max, chunks, events[..w]);
    NothingIsQuiet(c);
    if w < n {
      var room := MakeRoom(c, max, r, events[w]);
      assert Sound(c, room) && !Dark(room);
      assert Accepted(c, events[w]);
      if Tears(looks, n) { TearSound(c, room, events[w], TornLength(c, looks, events[w])); }
    }
  }

  /** On the disk a whole record and the bytes of one are the same. */
  lemma WriteIsDarken(c: Codec, chunks: seq<Chunk>, e: ShareEvent)
    requires |chunks| > 0
    ensures
      var w, d := Write(c, chunks, e), Darken(chunks, FrameOf(c, e));
      && |w| == |d|
      && (forall i | 0 <= i < |w| :: w[i].index == d[i].index && Content(c, w[i]) == Content(c, d[i]))
  {
    hide FrameOf, Frames;
    var last, f := chunks[|chunks| - 1], FrameOf(c, e);
    if last.dark == [] {
      FramesConcat(c, last.events, [e]);
      OneFrame(c, e);
      assert Frames(c, last.events) + ([] + f) == (Frames(c, last.events) + f) + [];
    }
  }

  /** Behind a record the same records are left when segments before its own go. */
  lemma Dropped(c: Codec, chunks: seq<Chunk>, k: nat, p: nat)
    requires k < |chunks| && p < |AllRecords(c, chunks)| && |Flat(chunks[..k])| <= p
    ensures
      var r, passed := chunks[k..], p + 1 - |Flat(chunks[..k])|;
      && StandsAt(c, r, After(AllRecords(c, chunks)[p]), passed)
      && |AllRecords(c, r)| - passed == |AllRecords(c, chunks)| - (p + 1)
      && (Sound(c, chunks) ==> Sound(c, r))
  {
    hide AllRecords, Flat, AllStorable, Quiet;
    DropFront(c, chunks, k);
    var passed := p + 1 - |Flat(chunks[..k])|;
    assert AllRecords(c, chunks[k..])[passed - 1] == AllRecords(c, chunks)[p];
    if Sound(c, chunks) {
      forall i | 0 <= i < |chunks| - k ensures AllStorable(c, chunks[k..][i].events) && Quiet(c, chunks[k..][i].dark) {
        assert chunks[k..][i] == chunks[k + i];
      }
    }
  }

  /** Files, the buffer of the last one, and its number and name, against the chunks. */
  predicate Holds(c: Codec, files: seq<Segment>, buffer: seq<byte>, index: nat, name: string, chunks: seq<Chunk>) {
    && |chunks| > 0 && Ascending(chunks)
    && var k := |chunks| - 1;
    && index == chunks[k].index && name == SegmentName(index)
    && |files| == |chunks|
    && (forall i | 0 <= i < k :: files[i] == Segment(chunks[i].index, Content(c, chunks[i])))
    && files[k].index == chunks[k].index
    && files[k].bytes + buffer == Content(c, chunks[k])
  }

  lemma HoldsFrom(c: Codec, files: seq<Segment>, buffer: seq<byte>, index: nat, name: string, chunks: seq<Chunk>, k: nat)
    requires Holds(c, files, buffer, index, name, chunks) && k < |chunks|
    ensures |files| == |chunks| && Holds(c, files[k..], buffer, index, name, chunks[k..])
  {
    hide Content, SegmentName;
    var n := |chunks| - k;
    assert forall i | 0 <= i < n :: chunks[k..][i] == chunks[k + i] && files[k..][i] == files[k + i];
  }

  /** A directory later on: no file is gone or shorter. */
  predicate Extends(files: seq<Segment>, later: seq<Segment>) {
    && |files| <= |later|
    && forall i | 0 <= i < |files| :: later[i].index == files[i].index && files[i].bytes <= later[i].bytes
  }

  lemma SameFiles(files: seq<Segment>)
    ensures Extends(files, files)
  {
  }

  lemma ExtendsAgain(a: seq<Segment>, b: seq<Segment>, d: seq<Segment>)
    requires Extends(a, b) && Extends(b, d)
    ensures Extends(a, d)
  {
    assert forall i | 0 <= i < |a| :: b[i].index == a[i].index && a[i].bytes <= b[i].bytes <= d[i].bytes;
  }

  // ---------- The outbox ----------

  class FileShareEventOutbox {
    const codec: Codec
    const directory: WalDirectory
    const segmentMaxBytes: int
    var currentSegmentIndex: nat
    var currentSegmentName: string
    /** Bytes written to the current stream and not yet out of it. */
    var buffer: seq<byte>

    /** What the segments hold, and how many of the records lie before the checkpoint. */
    ghost var chunks: seq<Chunk>
    ghost var passed: nat

    /** The files and the buffer hold the chunks. */
    ghost predicate Consistent()
      reads this, directory
    {
      Holds(codec, directory.segments, buffer, currentSegmentIndex, currentSegmentName, chunks)
    }

    /** The checkpoint is behind the records passed. */
    ghost predicate Stands()
      reads this, directory
    {
      StandsAt(codec, chunks, directory.Saved(), passed)
    }

    /** And a reader finds every record of theirs. */
    ghost predicate Valid()
      reads this, directory
    {
      Consistent() && Lawful(codec) && Sound(codec, chunks) && Stands()
    }

    /** Opening a recovered directory continues its last segment; an empty one gets
        segment 1. */
    constructor (codec: Codec, directory: WalDirectory, segmentMaxBytes: int,
                 ghost chunks: seq<Chunk>, ghost passed: nat)
      requires Lawful(codec) && Ascending(chunks) && Sound(codec, chunks)
      requires StoresAll(codec, directory.segments, chunks)
      requires StandsAt(codec, chunks, directory.Saved(), passed)
      modifies directory`segments
      ensures Valid()
      ensures this.codec == codec && this.directory == directory && this.segmentMaxBytes == segmentMaxBytes
      ensures this.chunks == if chunks == [] then [Chunk(1, [], [])] else chunks
      ensures this.passed == passed && buffer == []
      ensures chunks != [] ==> directory.segments == old(directory.segments)
    {
      hide Content, SegmentName, ParseSegmentIndex, AllRecords, Lawful, Consistent, StandsAt, Sound;
      this.codec, this.directory, this.segmentMaxBytes := codec, directory, segmentMaxBytes;
      this.buffer := [];
      this.chunks, this.passed := if chunks == [] then [Chunk(1, [], [])] else chunks, passed;
      var n := |directory.segments|;
      var index := if n == 0 then 1 else ParseSegmentIndex(SegmentName(directory.segments[n - 1].index));
      this.currentSegmentIndex, this.currentSegmentName := index, SegmentName(index);
      new;
      if n == 0 {
        directory.segments := [Segment(1, [])];
        NoContent();
        FirstChunk(codec, chunks, directory.Saved(), passed);
      } else {
        ParseInvertsName(chunks[n - 1].index);
      }
      StoredIsConsistent();
    }

    lemma StoredIsConsistent()
      requires |chunks| > 0 && Ascending(chunks)
      requires StoresAll(codec, directory.segments, chunks)
      requires currentSegmentIndex == chunks[|chunks| - 1].index
      requires currentSegmentName == SegmentName(currentSegmentIndex)
      requires buffer == []
      ensures Consistent()
    {
      hide Content, SegmentName;
      var k := |chunks| - 1;
      assert directory.segments[k].bytes + buffer == Content(codec, chunks[k]);
    }

    lemma NoContent()
      ensures forall k: nat :: Content(codec, Chunk(k, [], [])) == []
    {
    }

    lemma Shape()
      requires Consistent()
      ensures |chunks| == |directory.segments| > 0 && Ascending(chunks)
      ensures currentSegmentIndex == chunks[|chunks| - 1].index && currentSegmentName == SegmentName(currentSegmentIndex)
      ensures forall i | 0 <= i < |chunks| :: directory.segments[i].index == chunks[i].index
      ensures
        |Content(codec, chunks[|chunks| - 1])| == |directory.segments[|chunks| - 1].bytes| + |buffer|
    {
      hide Content, SegmentName;
      assert |directory.segments[|chunks| - 1].bytes + buffer| == |directory.segments[|chunks| - 1].bytes| + |buffer|;
    }

    /** Bytes leave the stream's buffer. */
    method Spill(n: nat)
      requires Consistent() && n <= |buffer|
      modifies this`buffer, directory`segments
      ensures Consistent() && buffer == old(buffer)[n..]
      ensures Extends(old(directory.segments), directory.segments)
    {
      hide Content, SegmentName;
      var k := |directory.segments| - 1;
      var last := directory.segments[k];
      assert last.bytes + buffer == (last.bytes + buffer[..n]) + buffer[n..];
      directory.segments := directory.segments[k := last.(bytes := last.bytes + buffer[..n])];
      buffer := buffer[n..];
    }

    method Flush()
      requires Consistent()
      modifies this`buffer, directory`segments
      ensures Consistent() && buffer == []
      ensures StoresAll(codec, directory.segments, chunks)
      ensures Extends(old(directory.segments), directory.segments)
    {
      hide Content, SegmentName;
      Spill(|buffer|);
      var k := |directory.segments| - 1;
      assert directory.segments[k].bytes + [] == directory.segments[k].bytes;
    }

    /** One write to the current stream: cancelled before anything is written, or
        complete, some of it perhaps already in the file. */
    method WriteAsync(bytes: seq<byte>, ct: CancellationToken) returns (cancelled: bool)
      requires Consistent()
      modifies this`buffer, this`chunks, directory`segments, ct
      ensures cancelled <==> old(ct.looks) == 0
      ensures ct.looks == if cancelled then 0 else old(ct.looks) - 1
      ensures Consistent()
      ensures chunks == if cancelled then old(chunks) else Darken(old(chunks), bytes)
      ensures Extends(old(directory.segments), directory.segments)
    {
      hide Frames, SegmentName;
      cancelled := ct.IsCancellationRequested();
      if !cancelled {
        ghost var k := |chunks| - 1;
        var last := directory.segments[|directory.segments| - 1];
        assert last.bytes + (buffer + bytes) == (last.bytes + buffer) + bytes;
        ghost var f, d := Frames(codec, chunks[k].events), chunks[k].dark;
        assert f + (d + bytes) == (f + d) + bytes;
        buffer := buffer + bytes;
        chunks := Darken(chunks, bytes);
        var spilled: nat :| spilled <= |buffer|;
        Spill(spilled);
      }
    }

    method RotateAsync()
      requires Consistent() && currentSegmentIndex + 1 < LONG_LIMIT
      modifies this`currentSegmentIndex, this`currentSegmentName, this`buffer, this`chunks, directory`segments
      ensures Consistent()
      ensures chunks == old(chunks) + [Chunk(old(currentSegmentIndex) + 1, [], [])]
      ensures Extends(old(directory.segments), directory.segments)
    {
      hide Content, SegmentName;
      NoContent();
      ghost var files := directory.segments;
      Flush();
      currentSegmentIndex := currentSegmentIndex + 1;
      currentSegmentName := SegmentName(currentSegmentIndex);
      directory.segments := directory.segments + [Segment(currentSegmentIndex, [])];
      chunks := chunks + [Chunk(currentSegmentIndex, [], [])];
    }

    /** Rotate when the current segment is not empty and `e` would overfill it. */
    method EnsureRoom(e: ShareEvent)
      requires Consistent() && Storable(codec, e) && |codec.encode(e).value| <= MAX_ARRAY
      requires currentSegmentIndex + 1 < LONG_LIMIT
      modifies this`currentSegmentIndex, this`currentSegmentName, this`buffer, this`chunks, directory`segments
      ensures Consistent()
      ensures chunks == MakeRoom(codec, segmentMaxBytes, old(chunks), e)
      ensures
        var length := |old(directory.segments)[|old(directory.segments)| - 1].bytes| + |old(buffer)|;
        |chunks| == |old(chunks)|
          + if length > 0 && length + 14 + |codec.encode(e).value| > segmentMaxBytes then 1 else 0
      ensures Extends(old(directory.segments), directory.segments)
    {
      hide SegmentName, Content, Consistent;
      Shape();
      var recordLength := 4 + 2 + 4 + |codec.encode(e).value| + 4;
      var length := |directory.segments[|directory.segments| - 1].bytes| + |buffer|;
      if length > 0 && length + recordLength > segmentMaxBytes {
        RotateAsync();
      }
    }

    /** Header, payload and checksum, one write each. */
    method WriteFrame(payload: seq<byte>, ct: CancellationToken) returns (cancelled: bool)
      requires Consistent() && |payload| <= MAX_ARRAY
      modifies this`buffer, this`chunks, directory`segments, ct
      ensures Consistent()
      ensures cancelled <==> old(ct.looks) < 3
      ensures ct.looks == if cancelled then 0 else old(ct.looks) - 3
      ensures chunks == if old(ct.looks) == 0 then old(chunks)
                        else Darken(old(chunks), Frame(payload)[..if old(ct.looks) == 1 then HEADER
                                                                  else if old(ct.looks) == 2 then HEADER + |payload|
                                                                  else |Frame(payload)|])
      ensures Extends(old(directory.segments), directory.segments)
    {
      hide Consistent, Extends, LE16, LE32, Fnv1a, Darken;
      Shape();
      var checksum := Checksum(payload);
      var header := LE32(MAGIC) + LE16(VERSION) + LE32(|payload|);
      DarkenTwice(chunks, header, payload);
      DarkenTwice(chunks, header + payload, LE32(checksum));
      TakeFront(header + payload, LE32(checksum), HEADER);
      TakeFront(header, payload, HEADER);
      TakeFront(header + payload, LE32(checksum), HEADER + |payload|);
      assert header[..HEADER] == header && (header + payload)[..HEADER + |payload|] == header + payload;
      assert Frame(payload)[..|Frame(payload)|] == Frame(payload);
      ghost var files := directory.segments;
      cancelled := WriteAsync(header, ct);
      if cancelled { return; }
      ghost var files' := directory.segments;
      cancelled := WriteAsync(payload, ct);
      ExtendsAgain(files, files', directory.segments);
      if cancelled { return; }
      files' := directory.segments;
      cancelled := WriteAsync(LE32(checksum), ct);
      ExtendsAgain(files, files', directory.segments);
    }

    /** A completely written record counts as one, unless it stands in the dark. */
    ghost method Seal(before: seq<Chunk>, e: ShareEvent)
      requires Consistent() && |before| > 0 && chunks == Darken(before, FrameOf(codec, e))
      modifies this`chunks
      ensures Consistent() && chunks == Write(codec, before, e)
    {
      hide SegmentName, FrameOf, Content, Write, Darken;
      WriteIsDarken(codec, before, e);
      chunks := Write(codec, before, e);
    }

    /** One record: the segment it goes to is opened if need be, then its frame is
        written. */
    method WriteRecord(e: ShareEvent, ct: CancellationToken) returns (cancelled: bool)
      requires Consistent() && Lawful(codec) && Storable(codec, e)
      requires currentSegmentIndex + 1 < LONG_LIMIT
      modifies this`currentSegmentIndex, this`currentSegmentName, this`buffer, this`chunks, directory`segments, ct
      ensures Consistent()
      ensures cancelled <==> old(ct.looks) < 3
      ensures ct.looks == if cancelled then 0 else old(ct.looks) - 3
      ensures
        var room := MakeRoom(codec, segmentMaxBytes, old(chunks), e);
        chunks == if cancelled then InRecord(codec, room, e, old(ct.looks)) else Put(codec, segmentMaxBytes, old(chunks), e)
      ensures Extends(old(directory.segments), directory.segments)
    {
      hide Consistent, Extends, Frame, MakeRoom, Write, Darken;
      Shape();
      EnsureRoom(e);
      ghost var files := directory.segments;
      ghost var room := chunks;
      var payload := codec.encode(e).value;
      assert payload == Payload(codec, e);
      cancelled := WriteFrame(payload, ct);
      ExtendsAgain(old(directory.segments), files, directory.segments);
      if !cancelled {
        assert Frame(payload)[..|Frame(payload)|] == Frame(payload);
        Seal(room, e);
      }
    }

    /** The loop of AppendAsync: a look at the token, the check of the id, the record. */
    method AppendRecords(events: seq<ShareEvent>, ct: CancellationToken) returns (outcome: AppendOutcome)
      requires Consistent() && Lawful(codec) && currentSegmentIndex + |events| < LONG_LIMIT
      modifies this`currentSegmentIndex, this`currentSegmentName, this`buffer, this`chunks, directory`segments, ct
      ensures Consistent()
      ensures chunks == Appending(codec, segmentMaxBytes, old(chunks), events, old(ct.looks) + 1)
      ensures
        var n := LeadingValid(codec, events);
        && (outcome == Rejected <==> n < |events| && old(ct.looks) > 4 * n)
        && (outcome == Appended <==> n == |events| && old(ct.looks) >= 4 * |events|)
        && (outcome == Appended ==> ct.looks == old(ct.looks) - 4 * |events|)
        && (outcome == Cancelled ==> ct.looks == 0)
        && ct.looks <= old(ct.looks)
      ensures Extends(old(directory.segments), directory.segments)
    {
      hide Holds, Extends, Put, MakeRoom, PutAll, IsBlank, LeadingValid, InRecord, Appending, Ascending, Lawful, Content,
           SegmentName, Darken;
      Shape();
      SameFiles(directory.segments);
      ghost var looks0, chunks0, n := ct.looks, chunks, LeadingValid(codec, events);
      PutNone(codec, segmentMaxBytes, chunks0, events[..0]);
      for i := 0 to |events|
        invariant Extends(old(directory.segments), directory.segments)
        invariant Consistent() && i <= n && looks0 == ct.looks + 4 * i
        invariant |chunks| > 0 && Ascending(chunks) && currentSegmentIndex == chunks[|chunks| - 1].index
        invariant chunks == PutAll(codec, segmentMaxBytes, chunks0, events[..i])
        invariant currentSegmentIndex + |events| - i < LONG_LIMIT
      {
        AppendingAt(codec, segmentMaxBytes, chunks0, events, ct.looks, i);
        var cancelled := ct.IsCancellationRequested();
        if cancelled {
          return Cancelled;
        }
        if IsBlank(events[i].eventId) || codec.encode(events[i]) == None {
          return Rejected;
        }
        ghost var before, files := chunks, directory.segments;
        cancelled := WriteRecord(events[i], ct);
        ExtendsAgain(old(directory.segments), files, directory.segments);
        if cancelled {
          return Cancelled;
        }
        Shape();
        PutNext(codec, segmentMaxBytes, chunks0, events, i);
        PutAscending(codec, segmentMaxBytes, before, events[i]);
      }
      AppendingAt(codec, segmentMaxBytes, chunks0, events, ct.looks, |events|);
      outcome := Appended;
    }

    /** Appending a batch under the gate, also behind a torn record. Whenever the token is
        cancelled, the segments are what `Appending` says; when nothing was dark before, a
        reader still finds every record of theirs. */
    method AppendAsync(events: seq<ShareEvent>, flushToDisk: bool, ct: CancellationToken)
      returns (outcome: AppendOutcome)
      requires Consistent() && Lawful(codec) && currentSegmentIndex + |events| < LONG_LIMIT
      modifies this`currentSegmentIndex, this`currentSegmentName, this`buffer, this`chunks, directory`segments, ct
      ensures Consistent() && AllGrown(codec, old(chunks), chunks)
      ensures chunks == Appending(codec, segmentMaxBytes, old(chunks), events, old(ct.looks))
      ensures
        var n := LeadingValid(codec, events);
        && (outcome == Rejected <==> n < |events| && old(ct.looks) >= 4 * n + 2)
        && (outcome == Appended <==> n == |events| && old(ct.looks) >= 4 * |events| + (if flushToDisk then 1 else 2))
        && (outcome == Appended ==> buffer == [])
        && (outcome == Appended ==> ct.looks == old(ct.looks) - 4 * |events| - (if flushToDisk then 1 else 2))
        && (outcome == Cancelled ==> ct.looks == 0)
        && ct.looks <= old(ct.looks)
      ensures old(Stands()) ==> Stands()
      ensures old(Valid()) && Sound(codec, chunks) ==> Valid()
      ensures old(Sound(codec, chunks)) && !Dark(old(chunks)) ==> Sound(codec, chunks)
      ensures Extends(old(directory.segments), directory.segments)
    {
      hide Holds, Extends, Sound, LeadingValid, Appending, AllGrown, StandsAt, Lawful, AllRecords, Content, Ascending,
           SegmentName;
      Shape();
      SameFiles(directory.segments);
      ghost var looks0, chunks0 := ct.looks, chunks;
      AppendingGrows(codec, segmentMaxBytes, chunks0, events, looks0);
      AppendingStands(chunks0, events, looks0);
      if Sound(codec, chunks0) && !Dark(chunks0) {
        AppendingSound(codec, segmentMaxBytes, chunks0, events, looks0);
      }
      var cancelled := ct.IsCancellationRequested();
      if cancelled {
        AppendingNothing(codec, segmentMaxBytes, chunks0, events);
        return Cancelled;
      }
      outcome := AppendRecords(events, ct);
      if outcome == Appended {
        if !flushToDisk {
          cancelled := ct.IsCancellationRequested();
          if cancelled {
            return Cancelled;
          }
        }
        ghost var files := directory.segments;
        Flush();
        ExtendsAgain(old(directory.segments), files, directory.segments);
      }
    }

    lemma AppendingStands(chunks0: seq<Chunk>, events: seq<ShareEvent>, looks: nat)
      requires |chunks0| > 0
      ensures
        var r := Appending(codec, segmentMaxBytes, chunks0, events, looks);
        StandsAt(codec, chunks0, directory.Saved(), passed) ==> StandsAt(codec, r, directory.Saved(), passed)
    {
      AppendingRecords(codec, segmentMaxBytes, chunks0, events, looks);
      var r := Appending(codec, segmentMaxBytes, chunks0, events, looks);
      hide AllRecords, Appending;
      if StandsAt(codec, chunks0, directory.Saved(), passed) {
        StandsLonger(codec, chunks0, r, directory.Saved(), passed);
      }
    }

    /** The part of ReadFromCheckpointAsync under the gate: which stretch of which file is
        to be read. The stretches stand for exactly the records behind the checkpoint. */
    method TakeSnapshot(ct: CancellationToken)
      returns (cancelled: bool, snapshot: seq<SegmentSnapshot>, ghost marks: seq<Mark>)
      requires Valid()
      modifies `buffer, directory`segments, ct
      ensures Valid()
      ensures cancelled <==> old(ct.looks) < 2 + |old(directory.segments)|
      ensures ct.looks == if cancelled then 0 else old(ct.looks) - 2 - |old(directory.segments)|
      ensures buffer == [] || (buffer == old(buffer) && directory.segments == old(directory.segments))
      ensures !cancelled ==> buffer == []
      ensures !cancelled ==> SnapshotOf(codec, snapshot, marks, chunks, directory.Saved())
      ensures Extends(old(directory.segments), directory.segments)
    {
      hide Extends, Content, Frames, SegmentName, OrdinalLess, StandsAt, Snapshot, Consistent, Lawful, Sound, ChunkRecords, Marked,
           Denotes, Ascending, AllRecords, Records, Flat, Holds;
      Shape();
      snapshot, marks := [], [];
      SameFiles(directory.segments);
      NothingMarked(codec);
      cancelled := ct.IsCancellationRequested();
      if cancelled { return; }
      cancelled := ct.IsCancellationRequested();
      if cancelled { return; }
      Flush();
      var checkpoint := directory.LoadCheckpoint();
      var listing := directory.segments;
      for i := 0 to |listing|
        invariant Valid() && buffer == [] && |marks| == |snapshot|
        invariant |listing| == |old(directory.segments)| && old(ct.looks) == 2 + i + ct.looks
        invariant StoresAll(codec, listing, chunks) && Extends(old(directory.segments), directory.segments)
        invariant forall j | 0 <= j < |snapshot| :: Denotes(codec, snapshot[j], marks[j]) && marks[j].chunk in chunks
        invariant forall j | 0 <= j < |marks| :: marks[j].k <= |marks[j].chunk.events|
        invariant Marked(codec, marks) + Snapshot(codec, chunks[i..], checkpoint) == Snapshot(codec, chunks, checkpoint)
      {
        cancelled := ct.IsCancellationRequested();
        if cancelled { return; }
        var name, length := SegmentName(listing[i].index), |listing[i].bytes|;
        Shape();
        ghost var mark := SnapshotHead(codec, chunks, checkpoint, passed, i);
        if checkpoint.segmentName != "" && OrdinalLess(name, checkpoint.segmentName) {
          continue;
        }
        var start := if name == checkpoint.segmentName then checkpoint.offset else 0;
        Regroup(Marked(codec, marks), ChunkRecords(codec, mark.chunk)[mark.k..], Snapshot(codec, chunks[i + 1..], checkpoint));
        if start < length {
          MarkedSnoc(codec, marks, mark);
          snapshot, marks := snapshot + [SegmentSnapshot(name, start, length)], marks + [mark];
        }
      }
      assert Snapshot(codec, chunks[|listing|..], checkpoint) == [] by { NoSnapshot(codec, chunks[|listing|..], checkpoint); }
    }

    /** Saving the checkpoint behind a record that was read, then deleting the
        segments before its own. A cancelled token changes nothing. */
    method AdvanceCheckpointAsync(record: OutboxRecord, ct: CancellationToken, ghost p: nat)
      returns (cancelled: bool)
      requires Valid()
      requires p < |AllRecords(codec, chunks)| && record == AllRecords(codec, chunks)[p]
      modifies directory, `chunks, `passed, ct
      ensures Valid()
      ensures cancelled <==> old(ct.looks) == 0
      ensures ct.looks == if cancelled then 0 else old(ct.looks) - 1
      ensures cancelled ==> chunks == old(chunks) && passed == old(passed) && directory.Saved() == old(directory.Saved())
      ensures cancelled ==> directory.segments == old(directory.segments)
      ensures |directory.segments| > 0
        && directory.segments[|directory.segments| - 1] == old(directory.segments)[|old(directory.segments)| - 1]
      ensures !cancelled ==> directory.Saved() == After(record)
      ensures !cancelled ==> chunks == Drop(old(chunks), record.segmentName, currentSegmentName)
      ensures !cancelled ==>
        |AllRecords(codec, chunks)| - passed == |AllRecords(codec, old(chunks))| - (p + 1)
    {
      hide Holds, SegmentName, AllRecords, Drop, Lawful, Sound, StandsAt;
      Shape();
      cancelled := ct.IsCancellationRequested();
      if cancelled { return; }
      ghost var k := Kept(p);
      ghost var chunks0 := chunks;
      HoldsFrom(codec, directory.segments, buffer, currentSegmentIndex, currentSegmentName, chunks, k);
      ghost var moments := directory.SaveCheckpoint(Checkpoint(record.segmentName, record.nextOffset));
      DeletePublishedSegments(record.segmentName, k);
      Dropped(codec, chunks0, k, p);
      passed := p + 1 - |Flat(chunks0[..k])|;
      chunks := chunks0[k..];
    }

    /** The segment of a record is kept, and those before it are not the current one. */
    lemma Kept(p: nat) returns (k: nat)
      requires Consistent() && p < |AllRecords(codec, chunks)|
      ensures k < |chunks| && |Flat(chunks[..k])| <= p
      ensures AllRecords(codec, chunks)[p].segmentName == SegmentName(chunks[k].index)
      ensures Drop(chunks, SegmentName(chunks[k].index), currentSegmentName) == chunks[k..]
    {
      hide FrameOf, Content, SegmentName, AllRecords, Flat, Drop;
      k := Locate(codec, chunks, p);
      forall i | 0 <= i < k ensures SegmentName(chunks[i].index) != currentSegmentName {
        NameOrder(chunks[i].index, currentSegmentIndex);
      }
      DropIsSuffix(chunks, k, currentSegmentName);
    }

    method DeletePublishedSegments(published: string, ghost k: nat)
      requires Consistent() && k < |chunks| && published == SegmentName(chunks[k].index)
      modifies directory`segments
      ensures directory.segments == old(directory.segments)[k..]
    {
      hide Content, SegmentName;
      var listing := directory.segments;
      assert forall i | 0 <= i < |listing| :: listing[i].index == chunks[i].index;
      for i := 0 to |listing|
        invariant i <= k && directory.segments == listing[i..]
      {
        var name := SegmentName(listing[i].index);
        NameOrder(chunks[i].index, chunks[k].index);
        NameOrder(chunks[k].index, chunks[i].index);
        if name == published {
          break;
        }
        NameOrder(chunks[i].index, currentSegmentIndex);
        if name != currentSegmentName {
          directory.segments := Remove(directory.segments, name);
        }
      }
    }
  }

  // ---------- Reading a snapshot ----------

  /** The bytes a segment had are still there, whatever was appended since: reading at the
      boundary behind `i` records, up to its old end, gives record `i`, or stops. */
  lemma ReadsMark(c: Codec, k: Chunk, later: Chunk, bytes: seq<byte>, i: nat)
    requires Lawful(c) && AllStorable(c, k.events) && Quiet(c, later.dark) && Grown(c, k, later)
    requires Content(c, k) <= bytes <= Content(c, later) && i <= |k.events|
    ensures
      var name, pos, limit := SegmentName(k.index), |Frames(c, k.events[..i])|, |Content(c, k)|;
      && pos <= limit <= |bytes|
      && (i < |k.events| ==>
            && pos < limit
            && TryReadAt(c, name, bytes, pos, limit) == Record(ChunkRecords(c, k)[i])
            && ChunkRecords(c, k)[i].nextOffset == |Frames(c, k.events[..i + 1])|)
      && (i == |k.events| && pos < limit ==> TryReadAt(c, name, bytes, pos, limit) == Stop)
  {
    hide TryReadAt, FrameOf, SegmentName, Frames, Records, Quiet;
    var name, pos, limit := SegmentName(k.index), |Frames(c, k.events[..i])|, |Content(c, k)|;
    assert k.events == k.events[..i] + k.events[i..];
    FramesConcat(c, k.events[..i], k.events[i..]);
    if i < |k.events| {
      var f := FrameOf(c, k.events[i]);
      FramesHead(c, k.events[i..]);
      RecordAt(c, name, 0, k.events, i);
      RecordAtLength(c, k.events, i);
      InTheMiddle(Frames(c, k.events[..i]), f, Frames(c, k.events[i..][1..]), k.dark, bytes);
      ReadsFrame(c, name, bytes, pos, limit, k.events[i]);
    } else if pos < limit {
      assert k.events[..i] == k.events;
      var dark := bytes[pos..];
      assert dark == later.dark[..|dark|];
      QuietPart(c, later.dark, |dark|);
      QuietStops(c, name, bytes, pos, limit, dark);
    }
  }

  lemma RecordAtLength(c: Codec, es: seq<ShareEvent>, i: nat)
    requires i < |es|
    ensures |Frames(c, es[..i + 1])| == |Frames(c, es[..i])| + |FrameOf(c, es[i])|
  {
    hide FrameOf, Frames;
    assert es[..i + 1] == es[..i] + [es[i]];
    FramesConcat(c, es[..i], [es[i]]);
    OneFrame(c, es[i]);
  }

  lemma InTheMiddle<T>(a: seq<T>, f: seq<T>, rest: seq<T>, d: seq<T>, s: seq<T>)
    requires a + (f + rest) + d <= s
    ensures |a| + |f| <= |s| && s[|a|..|a| + |f|] == f
  {
    assert s[..|a + (f + rest) + d|][|a|..|a| + |f|] == f;
  }

  /** Segments have different names, so a file is found under its own. */
  lemma {:induction false} FileOf(segments: seq<Segment>, i: nat)
    requires i < |segments|
    requires forall a | 0 <= a < |segments| :: segments[a].index < LONG_LIMIT
    requires forall a, b | 0 <= a < b < |segments| :: segments[a].index < segments[b].index
    ensures FileContent(segments, SegmentName(segments[i].index)) == segments[i].bytes
    decreases i
  {
    hide SegmentName;
    if i > 0 {
      NameOrder(segments[0].index, segments[i].index);
      forall a | 0 <= a < |segments| - 1 ensures segments[1..][a] == segments[a + 1] {}
      FileOf(segments[1..], i - 1);
    }
  }

  lemma TakeOne<T>(s: seq<T>, i: nat, rest: seq<T>)
    requires i <= |s|
    ensures s[i..] + rest == if i == |s| then rest else [s[i]] + (s[i + 1..] + rest)
  {
  }

  /** The rest of ReadFromCheckpointAsync, outside the gate: the records of a snapshot, one
      at a time. Each file is opened when its turn comes, with what it then holds, and
      read up to the end it had in the snapshot. */
  class CheckpointRecords {
    const outbox: FileShareEventOutbox
    const snapshot: seq<SegmentSnapshot>
    var current: nat
    var isOpen: bool
    var position: nat
    var limit: int

    /** The segments and the files when the snapshot was taken, and how many records of
        the current segment are before the position. */
    ghost const chunks: seq<Chunk>
    ghost const files: seq<Segment>
    ghost const marks: seq<Mark>
    ghost var before: nat

    /** What the snapshot says. */
    ghost predicate Taken() {
      && Sound(outbox.codec, chunks) && StoresAll(outbox.codec, files, chunks)
      && |marks| == |snapshot|
      && (forall i | 0 <= i < |marks| :: Denotes(outbox.codec, snapshot[i], marks[i]) && marks[i].chunk in chunks)
    }

    /** Files and segments are those of the snapshot, or have grown since. */
    ghost predicate Covered()
      reads outbox, outbox.directory
    {
      && Taken() && outbox.Valid()
      && AllGrown(outbox.codec, chunks, outbox.chunks) && Extends(files, outbox.directory.segments)
    }

    /** The position is a boundary. */
    ghost predicate Placed()
      reads this
    {
      && |marks| == |snapshot| && current <= |snapshot|
      && (forall i | 0 <= i < |marks| :: marks[i].k <= |marks[i].chunk.events|)
      && (isOpen ==>
            && current < |snapshot|
            && before <= |marks[current].chunk.events|
            && position == |Frames(outbox.codec, marks[current].chunk.events[..before])|
            && limit == snapshot[current].endOffset)
    }

    ghost predicate Valid()
      reads this, outbox, outbox.directory
    {
      Covered() && Placed()
    }

    /** The records still to come. */
    ghost function Rest(): seq<OutboxRecord>
      requires Placed()
      reads this
    {
      if isOpen then ChunkRecords(outbox.codec, marks[current].chunk)[before..] + Marked(outbox.codec, marks[current + 1..])
      else Marked(outbox.codec, marks[current..])
    }

    /** It stays valid while others append. */
    lemma StillCovered(earlier: seq<Chunk>, earlierFiles: seq<Segment>)
      requires Taken() && outbox.Valid()
      requires AllGrown(outbox.codec, chunks, earlier) && AllGrown(outbox.codec, earlier, outbox.chunks)
      requires Extends(files, earlierFiles) && Extends(earlierFiles, outbox.directory.segments)
      ensures Covered()
    {
      hide Taken, AllGrown, Extends, Holds, Sound, StandsAt, Lawful;
      GrownAgain(outbox.codec, chunks, earlier, outbox.chunks);
      ExtendsAgain(files, earlierFiles, outbox.directory.segments);
    }

    constructor (outbox: FileShareEventOutbox, snapshot: seq<SegmentSnapshot>, ghost marks: seq<Mark>)
      requires outbox.Valid() && outbox.buffer == []
      requires SnapshotOf(outbox.codec, snapshot, marks, outbox.chunks, outbox.directory.Saved())
      ensures Valid() && this.outbox == outbox
      ensures chunks == outbox.chunks && files == outbox.directory.segments
      ensures Rest() == Snapshot(outbox.codec, outbox.chunks, outbox.directory.Saved())
    {
      hide Content, SegmentName, Snapshot, Sound, StandsAt, Lawful, Ascending, Marked, Frames, Records, AllGrown;
      this.outbox, this.snapshot, this.marks := outbox, snapshot, marks;
      this.chunks, this.files := outbox.chunks, outbox.directory.segments;
      this.current, this.isOpen := 0, false;
      new;
      NotGrown(outbox.codec, outbox.chunks);
      SameFiles(files);
      StoredNow();
      assert marks[0..] == marks;
    }

    lemma StoredNow()
      requires outbox.Consistent() && outbox.buffer == []
      ensures StoresAll(outbox.codec, outbox.directory.segments, outbox.chunks)
    {
      hide Content;
      var k := |outbox.chunks| - 1;
      assert outbox.directory.segments[k].bytes + [] == outbox.directory.segments[k].bytes;
    }

    /** What a file now holds: at least what the snapshot saw, and no more than was
        appended. */
    lemma FileNow(i: nat, before: nat)
      requires Covered() && i < |snapshot| && before <= |marks[i].chunk.events|
      ensures Denotes(outbox.codec, snapshot[i], marks[i])
      ensures
        var k, bytes := marks[i].chunk, FileContent(outbox.directory.segments, snapshot[i].name);
        var pos, limit := |Frames(outbox.codec, k.events[..before])|, snapshot[i].endOffset;
        && pos <= limit <= |bytes|
        && (before < |k.events| ==>
              && pos < limit
              && TryReadAt(outbox.codec, snapshot[i].name, bytes, pos, limit) == Record(ChunkRecords(outbox.codec, k)[before])
              && ChunkRecords(outbox.codec, k)[before].nextOffset == |Frames(outbox.codec, k.events[..before + 1])|)
        && (before == |k.events| && pos < limit ==>
              TryReadAt(outbox.codec, snapshot[i].name, bytes, pos, limit) == Stop)
    {
      hide Content, SegmentName, AllStorable, Quiet, Grown, StandsAt, Lawful, Frames, TryReadAt, ChunkRecords;
      var m := marks[i];
      assert Denotes(outbox.codec, snapshot[i], m);
      var a :| 0 <= a < |chunks| && chunks[a] == m.chunk;
      var later, segments := outbox.chunks[a], outbox.directory.segments;
      assert Grown(outbox.codec, chunks[a], later);
      assert segments[a].index == files[a].index == m.chunk.index;
      assert segments[a].bytes <= Content(outbox.codec, later);
      FileOf(segments, a);
      ReadsMark(outbox.codec, m.chunk, later, segments[a].bytes, before);
    }

    /** A file is opened when its turn comes, with what it then holds. */
    method Open()
      requires Valid() && !isOpen && current < |snapshot|
      modifies `isOpen, `position, `limit, `before
      ensures Valid() && isOpen && Rest() == old(Rest())
    {
      hide Covered, SegmentName, Marked, Frames, TryReadAt, ChunkRecords, Content;
      var s := snapshot[current];
      ghost var k := marks[current].k;
      FileNow(current, k);
      MarkedHead(marks[current..]);
      assert marks[current..][1..] == marks[current + 1..];
      var content := FileContent(outbox.directory.segments, s.name);
      position, limit, before, isOpen := StartPosition(content, s.startOffset), Min(s.endOffset, |content|), k, true;
    }

    /** What the reader makes of the current file at the position. */
    method TryRead(name: string) returns (step: ReadStep)
      requires position <= |FileContent(outbox.directory.segments, name)|
      ensures step == TryReadAt(outbox.codec, name, FileContent(outbox.directory.segments, name), position, limit)
    {
      hide TryReadAt, FileContent;
      var stream := new SegmentStream(FileContent(outbox.directory.segments, name), position);
      step := stream.TryReadRecord(outbox.codec, name, limit);
    }

    /** The records of the current segment, as it was. */
    ghost function CurrentRecords(): seq<OutboxRecord>
      reads this
    {
      if current < |marks| then ChunkRecords(outbox.codec, marks[current].chunk) else []
    }

    /** What the file now has at the position. */
    lemma Here()
      requires Valid() && isOpen
      ensures current < |snapshot| && before <= |CurrentRecords()|
      ensures position <= |FileContent(outbox.directory.segments, snapshot[current].name)|
      ensures
        var step := TryReadAt(outbox.codec, snapshot[current].name,
                              FileContent(outbox.directory.segments, snapshot[current].name), position, limit);
        if before < |CurrentRecords()| then position < limit && step == Record(CurrentRecords()[before])
        else position < limit ==> step == Stop
    {
      hide Covered, Frames, TryReadAt, Denotes, FileContent, ChunkRecords, Content, SegmentName;
      FileNow(current, before);
    }

    lemma RestHere()
      requires Placed() && isOpen
      ensures
        var records, rest := CurrentRecords(), Marked(outbox.codec, marks[current + 1..]);
        && before <= |records|
        && Rest() == records[before..] + rest
        && Rest() == if before == |records| then rest else [records[before]] + (records[before + 1..] + rest)
    {
      hide ChunkRecords, Marked, Frames;
      TakeOne(CurrentRecords(), before, Marked(outbox.codec, marks[current + 1..]));
    }

    lemma NextBoundary()
      requires Valid() && isOpen && before < |CurrentRecords()|
      ensures before < |marks[current].chunk.events|
      ensures CurrentRecords()[before].nextOffset == |Frames(outbox.codec, marks[current].chunk.events[..before + 1])|
    {
      hide Covered, Frames, Denotes, TryReadAt, Content, SegmentName, FileContent;
      FileNow(current, before);
    }

    method Behind(next: nat)
      requires Valid() && isOpen && before < |CurrentRecords()| && next == CurrentRecords()[before].nextOffset
      modifies `position, `before
      ensures Valid() && isOpen && old(Rest()) == [old(CurrentRecords()[before])] + Rest()
    {
      hide Covered, Frames, ChunkRecords, Marked, Rest;
      NextBoundary();
      RestHere();
      ghost var records := CurrentRecords();
      position, before := next, before + 1;
      RestHere();
      assert records == CurrentRecords();
    }

    method Close()
      requires Valid() && isOpen && before == |CurrentRecords()|
      modifies `current, `isOpen
      ensures Valid() && !isOpen && current == old(current) + 1 && Rest() == old(Rest())
    {
      hide Covered, Frames, Denotes, ChunkRecords, Marked;
      TakeOne(CurrentRecords(), before, Marked(outbox.codec, marks[current + 1..]));
      isOpen, current := false, current + 1;
    }

    /** One turn of the loop over a file: a record, or the end of what is to be read. */
    method ReadHere() returns (record: Option<OutboxRecord>)
      requires Valid() && isOpen
      modifies `current, `isOpen, `position, `before
      ensures Valid()
      ensures
        match record
        case None => !isOpen && current == old(current) + 1 && Rest() == old(Rest())
        case Some(r) => isOpen && old(Rest()) == [r] + Rest()
    {
      hide Covered, Placed, TryReadAt, Rest, FileContent, CurrentRecords;
      Here();
      if position < limit {
        var step := TryRead(snapshot[current].name);
        if step.Record? {
          Behind(step.rec.nextOffset);
          return Some(step.rec);
        }
      }
      Close();
      record := None;
    }

    /** The next record of the snapshot, whatever was appended in the meantime; none when
        all of them are read. */
    method MoveNextAsync(ct: CancellationToken) returns (cancelled: bool, record: Option<OutboxRecord>)
      requires Valid()
      modifies `current, `isOpen, `position, `limit, `before, ct
      ensures Valid()
      ensures cancelled <==> old(Rest()) != [] && old(ct.looks) == 0
      ensures ct.looks == if old(Rest()) == [] || cancelled then old(ct.looks) else old(ct.looks) - 1
      ensures !cancelled ==> old(Rest()) == (match record case None => [] case Some(r) => [r] + Rest())
    {
      hide Covered, Rest, Frames, Marked, ChunkRecords;
      while current < |snapshot|
        invariant Valid() && Rest() == old(Rest()) && ct.looks == old(ct.looks)
        decreases |snapshot| - current, if isOpen then 0 else 1
      {
        if !isOpen {
          Open();
        }
        record := ReadHere();
        if record.Some? {
          cancelled := ct.IsCancellationRequested();
          return;
        }
      }
      NothingLeft();
      cancelled, record := false, None;
    }

    lemma NothingLeft()
      requires Valid() && current == |snapshot|
      ensures Rest() == []
    {
      assert marks[current..] == [];
    }

    lemma MarkedHead(rest: seq<Mark>)
      requires rest != []
      requires forall i | 0 <= i < |rest| :: rest[i].k <= |rest[i].chunk.events|
      ensures Marked(outbox.codec, rest)
        == ChunkRecords(outbox.codec, rest[0].chunk)[rest[0].k..] + Marked(outbox.codec, rest[1..])
    {
      hide ChunkRecords;
    }
  }
}
