/** The write-ahead log seen as events: numbered chunks of records, and the
    operations of the outbox on them. The bytes are in modules Framing and Wal. */
module Log {
  import opened Contracts
  import opened Checksums
  import opened Framing
  import opened SegmentNames

  /** What a segment file holds: events, and bytes behind them that no reader gets past,
      the remains of a torn record with whatever was appended to it. */
  datatype Chunk = Chunk(index: nat, events: seq<ShareEvent>, dark: seq<byte>)

  function Content(c: Codec, k: Chunk): seq<byte> {
    Frames(c, k.events) + k.dark
  }

  /** The last segment ends in the dark. */
  predicate Dark(chunks: seq<Chunk>)
    requires |chunks| > 0
  {
    chunks[|chunks| - 1].dark != []
  }

  /** The events can be stored, and what is dark is. */
  predicate Sound(c: Codec, chunks: seq<Chunk>) {
    forall i | 0 <= i < |chunks| :: AllStorable(c, chunks[i].events) && Quiet(c, chunks[i].dark)
  }

  datatype Checkpoint = Checkpoint(segmentName: string, offset: nat)

  const NO_CHECKPOINT := Checkpoint("", 0)

  predicate Ascending(chunks: seq<Chunk>) {
    && (forall i | 0 <= i < |chunks| :: chunks[i].index < LONG_LIMIT)
    && (forall i, j | 0 <= i < j < |chunks| :: chunks[i].index < chunks[j].index)
  }

  function Flat(chunks: seq<Chunk>): seq<ShareEvent> {
    if chunks == [] then [] else chunks[0].events + Flat(chunks[1..])
  }

  function ChunkRecords(c: Codec, k: Chunk): (rs: seq<OutboxRecord>)
    ensures |rs| == |k.events|
  {
    Records(c, SegmentName(k.index), 0, k.events)
  }

  /** Every record of the log, in order. */
  function AllRecords(c: Codec, chunks: seq<Chunk>): seq<OutboxRecord>
  {
    if chunks == [] then [] else ChunkRecords(c, chunks[0]) + AllRecords(c, chunks[1..])
  }

  function EventsOf(rs: seq<OutboxRecord>): (es: seq<ShareEvent>)
    ensures |es| == |rs|
    ensures forall i | 0 <= i < |rs| :: es[i] == rs[i].event
  {
    seq(|rs|, i requires 0 <= i < |rs| => rs[i].event)
  }

  /** The checkpoint the publisher saves after a record. */
  function After(r: OutboxRecord): Checkpoint {
    Checkpoint(r.segmentName, r.nextOffset)
  }

  /** The checkpoint stands behind the first `at` records. */
  predicate StandsAt(c: Codec, chunks: seq<Chunk>, cp: Checkpoint, at: nat)
  {
    && at <= |AllRecords(c, chunks)|
    && cp == if at == 0 then NO_CHECKPOINT else After(AllRecords(c, chunks)[at - 1])
  }

  // ---------- The operations ----------

  /** Room for a record: a fresh chunk when the last is not empty and would grow beyond
      the limit. */
  function MakeRoom(c: Codec, max: int, chunks: seq<Chunk>, e: ShareEvent): (r: seq<Chunk>)
    requires |chunks| > 0
    ensures |r| > 0
  {
    var last := chunks[|chunks| - 1];
    var length := |Content(c, last)|;
    if length > 0 && length + |FrameOf(c, e)| > max then chunks + [Chunk(last.index + 1, [], [])] else chunks
  }

  /** A whole record written to the last chunk: readable unless it stands in the dark. */
  function Write(c: Codec, chunks: seq<Chunk>, e: ShareEvent): (r: seq<Chunk>)
    requires |chunks| > 0
    ensures |r| == |chunks|
  {
    var k := |chunks| - 1;
    var last := chunks[k];
    chunks[..k] +
    [if last.dark == [] then Chunk(last.index, last.events + [e], []) else last.(dark := last.dark + FrameOf(c, e))]
  }

  /** Bytes of a record that is not completed. */
  function Darken(chunks: seq<Chunk>, bytes: seq<byte>): (r: seq<Chunk>)
    requires |chunks| > 0
    ensures |r| == |chunks|
  {
    var k := |chunks| - 1;
    chunks[..k] + [chunks[k].(dark := chunks[k].dark + bytes)]
  }

  function Put(c: Codec, max: int, chunks: seq<Chunk>, e: ShareEvent): (r: seq<Chunk>)
    requires |chunks| > 0
    ensures |r| > 0
  {
    Write(c, MakeRoom(c, max, chunks, e), e)
  }

  function PutAll(c: Codec, max: int, chunks: seq<Chunk>, es: seq<ShareEvent>): (r: seq<Chunk>)
    requires |chunks| > 0
    ensures |r| > 0
    decreases |es|
  {
    if es == [] then chunks else Put(c, max, PutAll(c, max, chunks, es[..|es| - 1]), es[|es| - 1])
  }

  /** How many of the records, from the first on, are written where no reader gets. */
  function Hidden(c: Codec, max: int, chunks: seq<Chunk>, es: seq<ShareEvent>): (h: nat)
    requires |chunks| > 0
    ensures h <= |es|
  {
    if es == [] then 0
    else Hidden(c, max, chunks, es[..|es| - 1]) + if Dark(PutAll(c, max, chunks, es)) then 1 else 0
  }

  /** What a snapshot taken under the gate reads: segments before the checkpoint's
      are skipped by name, its own is read from the saved offset. */
  function Snapshot(c: Codec, chunks: seq<Chunk>, cp: Checkpoint): seq<OutboxRecord>
  {
    if chunks == [] then []
    else
      var name := SegmentName(chunks[0].index);
      var rest := Snapshot(c, chunks[1..], cp);
      if cp.segmentName != "" && OrdinalLess(name, cp.segmentName) then rest
      else
        var start := if name == cp.segmentName then cp.offset else 0;
        ChunkRecords(c, chunks[0])[Fit(c, chunks[0].events, start)..] + rest
  }

  /** Deleting published segments: up to the published one, sparing the current. */
  function Drop(chunks: seq<Chunk>, published: string, current: string): seq<Chunk> {
    if chunks == [] then []
    else
      var name := SegmentName(chunks[0].index);
      if name == published then chunks
      else (if name == current then [chunks[0]] else []) + Drop(chunks[1..], published, current)
  }

  /** The last segment when only `n` of its bytes reached the file. */
  function Cut(c: Codec, k: Chunk, n: nat): (r: Chunk)
    requires n <= |Content(c, k)|
    ensures r.index == k.index
  {
    var m := Fit(c, k.events, n);
    FitBound(c, k.events, n);
    Chunk(k.index, k.events[..m], Content(c, k)[|Frames(c, k.events[..m])|..n])
  }

  /** Recovery cuts the first dark segment to its events, and no other. */
  function Mend(chunks: seq<Chunk>): (r: seq<Chunk>)
    ensures |r| == |chunks|
    ensures forall i | 0 <= i < |r| :: r[i].index == chunks[i].index && r[i].events == chunks[i].events
    ensures forall i | 0 <= i < |r| :: r[i].dark == chunks[i].dark || r[i].dark == []
  {
    if chunks == [] then []
    else if chunks[0].dark != [] then [chunks[0].(dark := [])] + chunks[1..]
    else [chunks[0]] + Mend(chunks[1..])
  }

  /** The chunks a crash leaves when only `flushed` bytes of the last segment reached
      the file. */
  function CutLast(c: Codec, chunks: seq<Chunk>, flushed: nat): (r: seq<Chunk>)
    requires |chunks| > 0 && flushed <= |Content(c, chunks[|chunks| - 1])|
    ensures |r| == |chunks|
  {
    var k := |chunks| - 1;
    chunks[..k] + [Cut(c, chunks[k], flushed)]
  }

  /** And those a restart finds. */
  function Truncate(c: Codec, chunks: seq<Chunk>, flushed: nat): (r: seq<Chunk>)
    requires |chunks| > 0 && flushed <= |Content(c, chunks[|chunks| - 1])|
    ensures |r| == |chunks|
  {
    Mend(CutLast(c, chunks, flushed))
  }

  lemma FitBound(c: Codec, es: seq<ShareEvent>, n: nat)
    ensures |Frames(c, es[..Fit(c, es, n)])| <= n
    ensures n >= |Frames(c, es)| ==> Fit(c, es, n) == |es|
  {
    hide Frames, Fit;
    assert es[..|es|] == es;
    if n <= |Frames(c, es)| { FitSplits(c, es, n); }
    if n >= |Frames(c, es)| {
      FitAtBoundary(c, es, |es|);
      FitMonotone(c, es, |Frames(c, es)|, n);
    }
  }

  // ---------- Their effect on the record list ----------

  lemma {:induction false} AllRecordsConcat(c: Codec, xs: seq<Chunk>, ys: seq<Chunk>)
    ensures AllRecords(c, xs + ys) == AllRecords(c, xs) + AllRecords(c, ys)
    decreases |xs|
  {
    hide ChunkRecords;
    if xs == [] {
      assert xs + ys == ys;
    } else {
      assert (xs + ys)[0] == xs[0] && (xs + ys)[1..] == xs[1..] + ys;
      AllRecordsConcat(c, xs[1..], ys);
    }
  }

  lemma {:induction false} FlatConcat(xs: seq<Chunk>, ys: seq<Chunk>)
    ensures Flat(xs + ys) == Flat(xs) + Flat(ys)
    decreases |xs|
  {
    if xs == [] {
      assert xs + ys == ys;
    } else {
      assert (xs + ys)[0] == xs[0] && (xs + ys)[1..] == xs[1..] + ys;
      FlatConcat(xs[1..], ys);
    }
  }

  lemma {:induction false} EventsOfRecords(c: Codec, name: string, offset: nat, es: seq<ShareEvent>)
    ensures EventsOf(Records(c, name, offset, es)) == es
  {
    var rs := Records(c, name, offset, es);
    forall k | 0 <= k < |es| ensures EventsOf(rs)[k] == es[k] {
      RecordAt(c, name, offset, es, k);
    }
  }

  lemma {:induction false} EventsOfAll(c: Codec, chunks: seq<Chunk>)
    ensures EventsOf(AllRecords(c, chunks)) == Flat(chunks)
    ensures |AllRecords(c, chunks)| == |Flat(chunks)|
    decreases |chunks|
  {
    hide SegmentName, Records, FrameOf;
    if chunks != [] {
      EventsOfRecords(c, SegmentName(chunks[0].index), 0, chunks[0].events);
      EventsOfAll(c, chunks[1..]);
      assert EventsOf(AllRecords(c, chunks))
          == EventsOf(ChunkRecords(c, chunks[0])) + EventsOf(AllRecords(c, chunks[1..]));
    }
  }

  lemma SplitLast(c: Codec, chunks: seq<Chunk>)
    requires |chunks| > 0
    ensures AllRecords(c, chunks)
         == AllRecords(c, chunks[..|chunks| - 1]) + ChunkRecords(c, chunks[|chunks| - 1])
    ensures Flat(chunks) == Flat(chunks[..|chunks| - 1]) + chunks[|chunks| - 1].events
  {
    hide *;
    var k := |chunks| - 1;
    AllRecordsConcat(c, chunks[..k], [chunks[k]]);
    FlatConcat(chunks[..k], [chunks[k]]);
    Singleton(c, chunks[k]);
    assert chunks[..k] + [chunks[k]] == chunks;
  }

  lemma Singleton(c: Codec, k: Chunk)
    ensures AllRecords(c, [k]) == ChunkRecords(c, k) && Flat([k]) == k.events
  {
    hide ChunkRecords;
    assert [k][1..] == [];
  }

  /** Writing a record adds it at the end, or hides it, and changes none before it. */
  lemma WriteRecords(c: Codec, chunks: seq<Chunk>, e: ShareEvent)
    requires |chunks| > 0
    ensures
      var r := Write(c, chunks, e);
      && Dark(r) == Dark(chunks)
      && AllRecords(c, chunks) <= AllRecords(c, r)
      && Flat(r) == Flat(chunks) + (if Dark(chunks) then [] else [e])
      && (Dark(chunks) ==> AllRecords(c, r) == AllRecords(c, chunks))
  {
    hide FrameOf, AllRecords, Flat;
    var r := Write(c, chunks, e);
    var k := |chunks| - 1;
    var init, last := chunks[..k], chunks[k];
    assert r[..k] == init;
    SplitLast(c, chunks);
    SplitLast(c, r);
    if last.dark == [] {
      RecordsConcat(c, SegmentName(last.index), 0, last.events, [e]);
      assert Flat(init) + (last.events + [e]) == (Flat(init) + last.events) + [e];
    } else {
      assert Flat(chunks) + [] == Flat(chunks);
    }
  }

  /** Opening a segment changes no record. */
  lemma AddEmpty(c: Codec, chunks: seq<Chunk>, added: Chunk)
    requires added.events == []
    ensures AllRecords(c, chunks + [added]) == AllRecords(c, chunks)
    ensures Flat(chunks + [added]) == Flat(chunks)
  {
    hide FrameOf, AllRecords, Flat;
    AllRecordsConcat(c, chunks, [added]);
    FlatConcat(chunks, [added]);
    Singleton(c, added);
    assert ChunkRecords(c, added) == [];
  }

  lemma RoomRecords(c: Codec, max: int, chunks: seq<Chunk>, e: ShareEvent)
    requires |chunks| > 0
    ensures
      var r := MakeRoom(c, max, chunks, e);
      && AllRecords(c, r) == AllRecords(c, chunks) && Flat(r) == Flat(chunks)
      && (Dark(r) ==> Dark(chunks))
  {
    hide FrameOf, AllRecords, Flat, Content;
    AddEmpty(c, chunks, Chunk(chunks[|chunks| - 1].index + 1, [], []));
  }

  lemma PutRecords(c: Codec, max: int, chunks: seq<Chunk>, e: ShareEvent)
    requires |chunks| > 0
    ensures
      var r := Put(c, max, chunks, e);
      && (Dark(r) ==> Dark(chunks))
      && AllRecords(c, chunks) <= AllRecords(c, r)
      && Flat(r) == Flat(chunks) + (if Dark(r) then [] else [e])
      && (Dark(r) ==> AllRecords(c, r) == AllRecords(c, chunks))
  {
    hide FrameOf, AllRecords, Flat, MakeRoom, Write, Dark;
    RoomRecords(c, max, chunks, e);
    WriteRecords(c, MakeRoom(c, max, chunks, e), e);
  }

  /** Whatever the rotations, appending adds the events in order behind those there are,
      except for the first ones when these are written behind a torn record; the first
      rotation ends that. */
  lemma {:induction false} PutAllRecords(c: Codec, max: int, chunks: seq<Chunk>, es: seq<ShareEvent>)
    requires |chunks| > 0
    ensures
      var r, h := PutAll(c, max, chunks, es), Hidden(c, max, chunks, es);
      && AllRecords(c, chunks) <= AllRecords(c, r)
      && Flat(r) == Flat(chunks) + es[h..]
      && (Dark(r) ==> Dark(chunks) && h == |es|)
      && (!Dark(chunks) ==> h == 0)
      && (h == |es| ==> Flat(r) == Flat(chunks))
    decreases |es|
  {
    hide AllRecords, Flat, Put, Dark;
    if es != [] {
      var init, e := es[..|es| - 1], es[|es| - 1];
      PutAllRecords(c, max, chunks, init);
      PutRecords(c, max, PutAll(c, max, chunks, init), e);
      assert es == init + [e];
      var h := Hidden(c, max, chunks, init);
      assert es[h..] == init[h..] + [e];
    }
    assert es[|es|..] == [];
    assert Flat(chunks) + [] == Flat(chunks);
  }

  lemma {:induction false} PutAllConcat(c: Codec, max: int, chunks: seq<Chunk>, a: seq<ShareEvent>, b: seq<ShareEvent>)
    requires |chunks| > 0
    ensures PutAll(c, max, chunks, a + b) == PutAll(c, max, PutAll(c, max, chunks, a), b)
    decreases |b|
  {
    hide Put;
    if b == [] {
      assert a + b == a;
    } else {
      assert (a + b)[..|a + b| - 1] == a + b[..|b| - 1];
      PutAllConcat(c, max, chunks, a, b[..|b| - 1]);
    }
  }

  /** `r` continues `chunks`: the earlier chunks are untouched, the last one keeps
      its number, and further ones have higher numbers, at most `n` more. */
  predicate Continues(chunks: seq<Chunk>, r: seq<Chunk>, n: nat)
    requires |chunks| > 0
  {
    && |chunks| <= |r| <= |chunks| + n
    && (forall i | 0 <= i < |chunks| - 1 :: r[i] == chunks[i])
    && r[|chunks| - 1].index == chunks[|chunks| - 1].index
    && r[|r| - 1].index <= chunks[|chunks| - 1].index + n
  }

  /** Numbering stays ascending and grows by at most one for each record. */
  lemma {:induction false} PutAllAscending(c: Codec, max: int, chunks: seq<Chunk>, es: seq<ShareEvent>)
    requires |chunks| > 0 && Ascending(chunks)
    requires chunks[|chunks| - 1].index + |es| < LONG_LIMIT
    ensures Ascending(PutAll(c, max, chunks, es))
    ensures Continues(chunks, PutAll(c, max, chunks, es), |es|)
    decreases |es|
  {
    hide Put;
    if es != [] {
      PutAllAscending(c, max, chunks, es[..|es| - 1]);
      PutAscending(c, max, PutAll(c, max, chunks, es[..|es| - 1]), es[|es| - 1]);
    }
  }

  /** No segment is larger than the limit unless a single record is; none was closed while the
      record after it would have fitted; and the last is not left empty behind others. */
  predicate Packed(c: Codec, max: int, chunks: seq<Chunk>) {
    && (forall i | 0 <= i < |chunks| :: |Content(c, chunks[i])| <= max || |chunks[i].events| <= 1)
    && (forall i | 0 < i < |chunks| :: chunks[i].events != []
          && |Content(c, chunks[i - 1])| + 14 + |Payload(c, chunks[i].events[0])| > max)
    && (forall i | 0 <= i < |chunks| :: chunks[i].dark == [])
  }

  lemma {:induction false} PutAllPacked(c: Codec, max: int, chunks: seq<Chunk>, es: seq<ShareEvent>)
    requires |chunks| > 0 && Packed(c, max, chunks)
    ensures Packed(c, max, PutAll(c, max, chunks, es))
    decreases |es|
  {
    hide Put, Packed;
    if es != [] {
      var init := es[..|es| - 1];
      PutAllPacked(c, max, chunks, init);
      PutPacked(c, max, PutAll(c, max, chunks, init), es[|es| - 1]);
    }
  }

  lemma PutPacked(c: Codec, max: int, chunks: seq<Chunk>, e: ShareEvent)
    requires |chunks| > 0 && Packed(c, max, chunks)
    ensures Packed(c, max, Put(c, max, chunks, e))
  {
    hide FrameOf, Payload, Content, Packed;
    var k := |chunks| - 1;
    var last, added := chunks[k], Chunk(chunks[k].index + 1, [], []);
    AllLit(c, max, chunks);
    FrameLength(c, e);
    OneMore(c, last, e);
    OneMore(c, added, e);
    if MakeRoom(c, max, chunks, e) != chunks {
      PackedSnoc(c, max, chunks, Chunk(added.index, [e], []));
      assert (chunks + [added])[..k + 1] == chunks && added.events + [e] == [e];
    } else {
      PackedLast(c, max, chunks, Chunk(last.index, last.events + [e], []));
    }
  }

  lemma AllLit(c: Codec, max: int, chunks: seq<Chunk>)
    requires Packed(c, max, chunks)
    ensures forall i | 0 <= i < |chunks| :: chunks[i].dark == []
  {
  }

  lemma PackedSnoc(c: Codec, max: int, chunks: seq<Chunk>, k: Chunk)
    requires |chunks| > 0 && Packed(c, max, chunks) && |k.events| == 1 && k.dark == []
    requires |Content(c, chunks[|chunks| - 1])| + 14 + |Payload(c, k.events[0])| > max
    ensures Packed(c, max, chunks + [k])
  {
    hide Content, Payload;
  }

  lemma PackedLast(c: Codec, max: int, chunks: seq<Chunk>, k: Chunk)
    requires |chunks| > 0 && Packed(c, max, chunks) && k.dark == [] && k.events != []
    requires |Content(c, k)| <= max || |k.events| <= 1
    requires chunks[|chunks| - 1].events != [] ==> k.events[0] == chunks[|chunks| - 1].events[0]
    ensures Packed(c, max, chunks[..|chunks| - 1] + [k])
  {
    hide Content, Payload;
    if |chunks| > 1 { assert chunks[|chunks| - 1].events != []; }
  }

  lemma OneMore(c: Codec, k: Chunk, e: ShareEvent)
    requires k.dark == []
    ensures |Content(c, Chunk(k.index, k.events + [e], []))| == |Content(c, k)| + 14 + |Payload(c, e)|
    ensures |Content(c, k)| == 0 <==> k.events == []
  {
    hide FrameOf, Payload;
    FramesConcat(c, k.events, [e]);
    OneFrame(c, e);
    FrameLength(c, e);
    if k.events != [] { FrameLength(c, k.events[0]); }
  }

  lemma FrameLength(c: Codec, e: ShareEvent)
    ensures |FrameOf(c, e)| == 14 + |Payload(c, e)|
  {
    hide Payload;
  }

  lemma PutAscending(c: Codec, max: int, chunks: seq<Chunk>, e: ShareEvent)
    requires |chunks| > 0 && Ascending(chunks)
    requires chunks[|chunks| - 1].index + 1 < LONG_LIMIT
    ensures Ascending(Put(c, max, chunks, e)) && Continues(chunks, Put(c, max, chunks, e), 1)
  {
    hide Content, FrameOf;
  }

  lemma {:induction false} RecordNames(c: Codec, chunks: seq<Chunk>, k: nat)
    requires k < |AllRecords(c, chunks)|
    ensures exists i :: 0 <= i < |chunks| && AllRecords(c, chunks)[k].segmentName == SegmentName(chunks[i].index)
    decreases |chunks|
  {
    var n := |chunks[0].events|;
    if k < n {
      RecordAt(c, SegmentName(chunks[0].index), 0, chunks[0].events, k);
    } else {
      RecordNames(c, chunks[1..], k - n);
      var i :| 0 <= i < |chunks| - 1
        && AllRecords(c, chunks[1..])[k - n].segmentName == SegmentName(chunks[1..][i].index);
      assert chunks[i + 1] == chunks[1..][i];
    }
  }

  /** A checkpoint in an earlier segment, or none, hides nothing. */
  lemma {:induction false} SnapshotAll(c: Codec, chunks: seq<Chunk>, cp: Checkpoint)
    requires forall i | 0 <= i < |chunks| ::
      && SegmentName(chunks[i].index) != cp.segmentName
      && (cp.segmentName != "" ==> !OrdinalLess(SegmentName(chunks[i].index), cp.segmentName))
    ensures Snapshot(c, chunks, cp) == AllRecords(c, chunks)
    decreases |chunks|
  {
    hide OrdinalLess, SegmentName, FrameOf;
    if chunks != [] {
      forall i | 0 <= i < |chunks[1..]| ensures chunks[1..][i] == chunks[i + 1] {}
      SnapshotAll(c, chunks[1..], cp);
    }
  }

  lemma SnapshotUnfold(c: Codec, chunks: seq<Chunk>, cp: Checkpoint, k: nat)
    requires |chunks| > 0 && SegmentName(chunks[0].index) == cp.segmentName
    requires !OrdinalLess(cp.segmentName, cp.segmentName) && Fit(c, chunks[0].events, cp.offset) == k
    ensures Snapshot(c, chunks, cp) == ChunkRecords(c, chunks[0])[k..] + Snapshot(c, chunks[1..], cp)
  {
    hide FrameOf, Fit, Records, OrdinalLess, SegmentName;
  }

  lemma DropOfSum<T>(a: seq<T>, b: seq<T>, n: nat)
    requires n <= |a|
    ensures (a + b)[n..] == a[n..] + b
  {
  }

  /** The checkpoint names the first segment: its own records behind the offset, and
      all of the later segments. */
  lemma SnapshotFromHead(c: Codec, chunks: seq<Chunk>, cp: Checkpoint, at: nat)
    requires Ascending(chunks) && StandsAt(c, chunks, cp, at)
    requires |chunks| > 0 && 0 < at <= |chunks[0].events|
    ensures Snapshot(c, chunks, cp) == AllRecords(c, chunks)[at..]
  {
    hide OrdinalLess, SegmentName, FrameOf, Records, Fit, Snapshot;
    var head, rest := chunks[0], chunks[1..];
    var name := SegmentName(head.index);
    RecordAt(c, name, 0, head.events, at - 1);
    NameOrder(head.index, head.index);
    FitAtBoundary(c, head.events, at);
    forall i | 0 <= i < |rest| ensures
      SegmentName(rest[i].index) != name && !OrdinalLess(SegmentName(rest[i].index), name)
    {
      assert rest[i] == chunks[i + 1];
      NameOrder(rest[i].index, head.index);
    }
    SnapshotUnfold(c, chunks, cp, at);
    SnapshotAll(c, rest, cp);
    DropOfSum(ChunkRecords(c, head), AllRecords(c, rest), at);
  }

  /** Reading from a checkpoint that stands behind the first `at` records yields
      exactly the records after them. */
  lemma {:induction false} SnapshotIsSuffix(c: Codec, chunks: seq<Chunk>, cp: Checkpoint, at: nat)
    requires Ascending(chunks) && StandsAt(c, chunks, cp, at)
    ensures Snapshot(c, chunks, cp) == AllRecords(c, chunks)[at..]
    decreases |chunks|
  {
    hide OrdinalLess, SegmentName, FrameOf, Records, Fit;
    if at == 0 {
      SnapshotAll(c, chunks, cp);
    } else if at <= |chunks[0].events| {
      SnapshotFromHead(c, chunks, cp, at);
    } else {
      var n, rest := |chunks[0].events|, chunks[1..];
      RecordNames(c, rest, at - n - 1);
      var i :| 0 <= i < |rest| && AllRecords(c, rest)[at - n - 1].segmentName == SegmentName(rest[i].index);
      assert rest[i] == chunks[i + 1];
      NameOrder(chunks[0].index, rest[i].index);
      SnapshotIsSuffix(c, rest, cp, at - n);
    }
  }

  /** Deletion removes exactly the segments before the published one; the published
      one and all after it, the current one included, stay. */
  lemma {:induction false} DropIsSuffix(chunks: seq<Chunk>, k: nat, current: string)
    requires Ascending(chunks) && k < |chunks|
    requires forall i | 0 <= i < k :: SegmentName(chunks[i].index) != current
    ensures Drop(chunks, SegmentName(chunks[k].index), current) == chunks[k..]
    decreases k
  {
    hide SegmentName;
    if k > 0 {
      NameOrder(chunks[0].index, chunks[k].index);
      assert chunks[k] == chunks[1..][k - 1];
      forall i | 0 <= i < k - 1 ensures chunks[1..][i] == chunks[i + 1] {}
      DropIsSuffix(chunks[1..], k - 1, current);
    }
  }

  /** Deleting d closed segments removes their records from the front. */
  lemma DropFront(c: Codec, chunks: seq<Chunk>, d: nat)
    requires d <= |chunks|
    ensures |Flat(chunks[..d])| <= |AllRecords(c, chunks)| == |Flat(chunks)|
    ensures AllRecords(c, chunks[d..]) == AllRecords(c, chunks)[|Flat(chunks[..d])|..]
    ensures Flat(chunks[d..]) == Flat(chunks)[|Flat(chunks[..d])|..]
    ensures Flat(chunks) == Flat(chunks[..d]) + Flat(chunks[d..])
  {
    hide AllRecords, Flat;
    assert chunks == chunks[..d] + chunks[d..];
    AllRecordsConcat(c, chunks[..d], chunks[d..]);
    FlatConcat(chunks[..d], chunks[d..]);
    EventsOfAll(c, chunks[..d]);
    EventsOfAll(c, chunks[d..]);
  }

  lemma LaterSegments(c: Codec, chunks: seq<Chunk>, d: nat)
    requires d < |chunks| && Ascending(chunks) && Sound(c, chunks)
    ensures Ascending(chunks[d..]) && Sound(c, chunks[d..]) && chunks[d..][|chunks| - d - 1] == chunks[|chunks| - 1]
  {
    hide Quiet, AllStorable;
    assert forall i | 0 <= i < |chunks| - d :: chunks[d..][i] == chunks[d + i];
  }

  /** Where a record stands: in which chunk, and after how many of its records. */
  lemma {:induction false} Locate(c: Codec, chunks: seq<Chunk>, p: nat) returns (k: nat)
    requires p < |AllRecords(c, chunks)|
    ensures k < |chunks|
    ensures AllRecords(c, chunks)[p].segmentName == SegmentName(chunks[k].index)
    ensures |Flat(chunks[..k])| <= p < |Flat(chunks[..k])| + |chunks[k].events|
    decreases |chunks|
  {
    hide SegmentName;
    var n := |chunks[0].events|;
    if p < n {
      RecordAt(c, SegmentName(chunks[0].index), 0, chunks[0].events, p);
      k := 0;
    } else {
      var j := Locate(c, chunks[1..], p - n);
      k := j + 1;
      assert chunks[..k][1..] == chunks[1..][..j];
    }
  }

  /** How many of the records survive when only `n` bytes of the last segment are
      in its file. */
  function Durable(c: Codec, chunks: seq<Chunk>, n: nat): nat
    requires |chunks| > 0
  {
    |Flat(chunks[..|chunks| - 1])| + Fit(c, chunks[|chunks| - 1].events, n)
  }

  lemma AllDurable(c: Codec, chunks: seq<Chunk>, n: nat)
    requires |chunks| > 0 && n >= |Frames(c, chunks[|chunks| - 1].events)|
    ensures Durable(c, chunks, n) == |AllRecords(c, chunks)|
  {
    hide FrameOf, AllRecords, Flat, Frames, Fit;
    FitBound(c, chunks[|chunks| - 1].events, n);
    SplitLast(c, chunks);
    EventsOfAll(c, chunks);
  }

  lemma TakeOfSum<T>(a: seq<T>, b: seq<T>, m: nat)
    requires m <= |b|
    ensures (a + b)[..|a| + m] == a + b[..m]
  {
  }

  /** A crash cuts the record list after the last durable record. */
  lemma CutRecords(c: Codec, chunks: seq<Chunk>, n: nat)
    requires |chunks| > 0 && Ascending(chunks) && n <= |Content(c, chunks[|chunks| - 1])|
    ensures
      var r, d := CutLast(c, chunks, n), Durable(c, chunks, n);
      && Ascending(r)
      && d <= |Flat(chunks)| == |AllRecords(c, chunks)|
      && Flat(r) == Flat(chunks)[..d]
      && AllRecords(c, r) == AllRecords(c, chunks)[..d]
  {
    hide FrameOf, AllRecords, Flat, Frames, Fit, Records;
    var r := CutLast(c, chunks, n);
    var k := |chunks| - 1;
    var last := chunks[k];
    var m := Fit(c, last.events, n);
    assert r[..k] == chunks[..k] && r[k].index == last.index && r[k].events == last.events[..m];
    SplitLast(c, chunks);
    SplitLast(c, r);
    EventsOfAll(c, r);
    EventsOfAll(c, chunks);
    EventsOfAll(c, chunks[..k]);
    TakeOfSum(Flat(chunks[..k]), last.events, m);
    TakeOfSum(AllRecords(c, chunks[..k]), ChunkRecords(c, last), m);
    RecordsTake(c, SegmentName(last.index), 0, last.events, m);
  }

  /** Recovery changes no record. */
  lemma {:induction false} SameRecords(c: Codec, chunks: seq<Chunk>, r: seq<Chunk>)
    requires |r| == |chunks|
    requires forall i | 0 <= i < |r| :: r[i].index == chunks[i].index && r[i].events == chunks[i].events
    ensures AllRecords(c, r) == AllRecords(c, chunks) && Flat(r) == Flat(chunks)
    decreases |chunks|
  {
    hide Records, SegmentName;
    if chunks != [] { SameRecords(c, chunks[1..], r[1..]); }
  }

  /** After a crash and recovery exactly the durable records are there. */
  lemma TruncateRecords(c: Codec, chunks: seq<Chunk>, n: nat)
    requires |chunks| > 0 && Ascending(chunks) && n <= |Content(c, chunks[|chunks| - 1])|
    ensures
      var r, d := Truncate(c, chunks, n), Durable(c, chunks, n);
      && Ascending(r)
      && d <= |Flat(chunks)| == |AllRecords(c, chunks)|
      && Flat(r) == Flat(chunks)[..d]
      && AllRecords(c, r) == AllRecords(c, chunks)[..d]
      && Durable(c, r, |Content(c, r[|r| - 1])|) == d
  {
    hide FrameOf, AllRecords, Flat, Frames, Fit, Records, CutLast, Durable, Mend;
    var cut := CutLast(c, chunks, n);
    CutRecords(c, chunks, n);
    var r := Mend(cut);
    SameRecords(c, cut, r);
    AllDurable(c, r, |Content(c, r[|r| - 1])|);
    EventsOfAll(c, r);
  }

  lemma {:induction false} OneMend(chunks: seq<Chunk>)
    requires forall i | 0 <= i < |chunks| - 1 :: chunks[i].dark == []
    ensures forall i | 0 <= i < |chunks| :: Mend(chunks)[i].dark == []
    decreases |chunks|
  {
    if chunks != [] { OneMend(chunks[1..]); }
  }

  /** What a crash leaves is sound: a record cut short is quiet. */
  lemma CutIsSound(c: Codec, k: Chunk, n: nat)
    requires Lawful(c) && AllStorable(c, k.events) && Quiet(c, k.dark) && n <= |Content(c, k)|
    ensures AllStorable(c, Cut(c, k, n).events) && Quiet(c, Cut(c, k, n).dark)
  {
    hide Frames, Quiet, Fit, FrameOf;
    var m, f := Fit(c, k.events, n), Frames(c, k.events);
    FitBound(c, k.events, n);
    var kept := Frames(c, k.events[..m]);
    if n <= |f| {
      FitSplits(c, k.events, n);
      assert Content(c, k)[..n] == f[..n];
      assert Content(c, k)[|kept|..n] == f[..n][|kept|..];
      if m < |k.events| {
        TornIsQuiet(c, k.events[m], n - |kept|);
        DropOfSum(kept, FrameOf(c, k.events[m])[..n - |kept|], |kept|);
        assert kept[|kept|..] + FrameOf(c, k.events[m])[..n - |kept|] == FrameOf(c, k.events[m])[..n - |kept|];
      } else {
        NothingIsQuiet(c);
        assert f[..n][|kept|..] == [];
      }
    } else {
      assert k.events[..m] == k.events;
      assert Content(c, k)[|f|..n] == k.dark[..n - |f|];
      QuietPart(c, k.dark, n - |f|);
    }
  }

  lemma NothingIsQuiet(c: Codec)
    ensures Quiet(c, [])
  {
  }

  lemma TruncateIsSound(c: Codec, chunks: seq<Chunk>, n: nat)
    requires Lawful(c) && Sound(c, chunks) && |chunks| > 0 && n <= |Content(c, chunks[|chunks| - 1])|
    ensures Sound(c, CutLast(c, chunks, n)) && Sound(c, Truncate(c, chunks, n))
  {
    hide Quiet, Cut, Mend, AllStorable;
    CutIsSound(c, chunks[|chunks| - 1], n);
    NothingIsQuiet(c);
  }

  lemma RecordsTake(c: Codec, name: string, offset: nat, es: seq<ShareEvent>, m: nat)
    requires m <= |es|
    ensures Records(c, name, offset, es[..m]) == Records(c, name, offset, es)[..m]
  {
    hide FrameOf, Records, Frames;
    assert es == es[..m] + es[m..];
    RecordsConcat(c, name, offset, es[..m], es[m..]);
  }

  /** A saved offset is a record boundary of the segment it names. */
  lemma SavedOffsetIsBoundary(c: Codec, chunks: seq<Chunk>, cp: Checkpoint, at: nat, i: nat) returns (k: nat)
    requires Ascending(chunks) && StandsAt(c, chunks, cp, at) && i < |chunks|
    requires SegmentName(chunks[i].index) == cp.segmentName
    ensures k <= |chunks[i].events| && cp.offset == |Frames(c, chunks[i].events[..k])|
  {
    hide SegmentName, FrameOf, AllRecords, Flat;
    var j := Locate(c, chunks, at - 1);
    NameOrder(chunks[i].index, chunks[j].index);
    NameOrder(chunks[j].index, chunks[i].index);
    assert i == j;
    k := at - |Flat(chunks[..i])|;
    RecordInChunk(c, chunks, i, k - 1);
    RecordAt(c, SegmentName(chunks[i].index), 0, chunks[i].events, k - 1);
  }

  lemma RecordInChunk(c: Codec, chunks: seq<Chunk>, i: nat, k: nat)
    requires i < |chunks| && k < |chunks[i].events|
    ensures |Flat(chunks[..i])| + k < |AllRecords(c, chunks)|
    ensures AllRecords(c, chunks)[|Flat(chunks[..i])| + k] == ChunkRecords(c, chunks[i])[k]
  {
    hide AllRecords, Flat, ChunkRecords;
    var front, rest := chunks[..i + 1], chunks[i + 1..];
    assert chunks == front + rest && front[..i] == chunks[..i] && front[i] == chunks[i];
    AllRecordsConcat(c, front, rest);
    SplitLast(c, front);
    EventsOfAll(c, front[..i]);
  }

  lemma PutSound(c: Codec, max: int, chunks: seq<Chunk>, e: ShareEvent)
    requires |chunks| > 0 && Sound(c, chunks) && Storable(c, e) && !Dark(chunks)
    ensures Sound(c, Put(c, max, chunks, e)) && !Dark(Put(c, max, chunks, e))
  {
    NothingIsQuiet(c);
    hide FrameOf, Quiet, Content;
  }

  /** Nothing written where it is not dark can disturb a reader. */
  lemma {:induction false} PutAllSound(c: Codec, max: int, chunks: seq<Chunk>, es: seq<ShareEvent>)
    requires |chunks| > 0 && Sound(c, chunks) && AllStorable(c, es) && !Dark(chunks)
    ensures Sound(c, PutAll(c, max, chunks, es)) && !Dark(PutAll(c, max, chunks, es))
    decreases |es|
  {
    hide Put, Sound, Dark;
    if es != [] {
      var init, e := es[..|es| - 1], es[|es| - 1];
      PutAllSound(c, max, chunks, init);
      assert Storable(c, e);
      PutSound(c, max, PutAll(c, max, chunks, init), e);
    }
  }

  /** A first tear cannot either. */
  lemma TearSound(c: Codec, chunks: seq<Chunk>, e: ShareEvent, bytes: nat)
    requires |chunks| > 0 && Lawful(c) && Sound(c, chunks) && Storable(c, e) && !Dark(chunks)
    requires bytes in {HEADER, HEADER + |Payload(c, e)|}
    ensures Sound(c, Darken(chunks, FrameOf(c, e)[..bytes]))
  {
    hide FrameOf, Quiet, Content, Payload;
    TornIsQuiet(c, e, bytes);
    assert [] + FrameOf(c, e)[..bytes] == FrameOf(c, e)[..bytes];
  }

  /** A cancelled record changes no record there is. */
  lemma DarkenKeeps(c: Codec, chunks: seq<Chunk>, bytes: seq<byte>)
    requires |chunks| > 0
    ensures
      var r := Darken(chunks, bytes);
      AllRecords(c, r) == AllRecords(c, chunks) && Flat(r) == Flat(chunks) && (Ascending(chunks) ==> Ascending(r))
  {
    SameRecords(c, chunks, Darken(chunks, bytes));
  }

  lemma DarkenTwice(chunks: seq<Chunk>, a: seq<byte>, b: seq<byte>)
    requires |chunks| > 0
    ensures Darken(Darken(chunks, a), b) == Darken(chunks, a + b)
  {
    var k := |chunks| - 1;
    assert (chunks[k].dark + a) + b == chunks[k].dark + (a + b);
    assert Darken(chunks, a)[..k] == chunks[..k];
  }

  /** Reading a segment file from a boundary to any later end the file had or has, while
      `more` was appended: the records from the boundary to that end. */
  lemma ReadsFromBoundary(c: Codec, k: Chunk, j: nat, more: seq<byte>)
    requires Lawful(c) && AllStorable(c, k.events) && j <= |k.events|
    requires k.dark != [] ==> Quiet(c, k.dark + more)
    ensures
      var start, end := |Frames(c, k.events[..j])|, |Content(c, k)|;
      && start <= end
      && (start == end ==> j == |k.events|)
      && ScanFrom(c, SegmentName(k.index), Content(c, k) + more, start, end).records == ChunkRecords(c, k)[j..]
      && ScanFrom(c, SegmentName(k.index), Content(c, k) + more, start, end).fate != Threw
  {
    hide FrameOf, SegmentName, Frames, ScanFrom, Quiet, AllStorable;
    var a, b := k.events[..j], k.events[j..];
    assert k.events == a + b;
    FramesConcat(c, a, b);
    RecordsConcat(c, SegmentName(k.index), 0, a, b);
    var start, end, content := |Frames(c, a)|, |Content(c, k)|, Content(c, k) + more;
    DropPrefix(Frames(c, a), Frames(c, b), k.dark, more);
    PartIsStorable(c, k.events, j);
    ScanQuiet(c, SegmentName(k.index), content, start, end, b, k.dark + more);
    if j < |k.events| {
      FramesHead(c, b);
      assert |FrameOf(c, b[0])| > 0;
    }
  }

  lemma DropPrefix<T>(a: seq<T>, b: seq<T>, d: seq<T>, e: seq<T>)
    ensures (((a + b) + d) + e)[|a|..] == b + (d + e)
  {
  }

  lemma PartIsStorable(c: Codec, es: seq<ShareEvent>, j: nat)
    requires AllStorable(c, es) && j <= |es|
    ensures AllStorable(c, es[..j]) && AllStorable(c, es[j..])
  {
  }
}
