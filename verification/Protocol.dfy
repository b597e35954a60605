/** The publishing protocol over every run: the outbox and its single publisher as
    a state machine with crashes, and what all its reachable states satisfy. */
module Protocol {
  import opened Contracts
  import opened Checksums
  import opened Framing
  import opened SegmentNames
  import opened Log
  import opened Dedup

  /** The publisher between its awaits: nothing in hand, or a batch it has read,
      which may or may not have reached the stream. */
  datatype Publisher = Idle | Holding(records: seq<OutboxRecord>, published: bool)

  /** The first four fields are the state of the program; the others are history:
      every event logged where a reader gets and not lost in a crash, the events
      written behind a torn record, how many of the logged were deleted with their
      segments, how many lie before the checkpoint, the stream, and the length of
      the longest beginning of the log that was delivered to it. */
  datatype Sys = Sys(
    chunks: seq<Chunk>,
    flushed: nat,
    checkpoint: Checkpoint,
    publisher: Publisher,
    log: seq<ShareEvent>,
    lost: seq<ShareEvent>,
    deleted: nat,
    passed: nat,
    stream: seq<ShareEvent>,
    delivered: nat)

  datatype Step =
    | Append(events: seq<ShareEvent>, flushed: nat)  // written; `flushed` bytes of the last segment left the buffer
    | Tear(event: ShareEvent, bytes: nat, flushed: nat)  // cancelled after so many bytes of a record
    | Rotate                                         // a fresh segment is opened, the old one is on disk
    | Read(count: nat)                               // the publisher takes `count` records of a snapshot
    | Publish                                        // its batch reaches the stream, perhaps not for the first time
    | Advance(deletions: nat)                        // checkpoint saved, then at most so many segments deleted
    | Restart                                        // process crash, recovery, reopening

  const INIT := Sys([Chunk(1, [], [])], 0, NO_CHECKPOINT, Idle, [], [], 0, 0, [], 0)

  function Last(s: Sys): Chunk
    requires |s.chunks| > 0
  {
    s.chunks[|s.chunks| - 1]
  }

  /** How many of the records in the log are out of the buffer. */
  function Safe(c: Codec, s: Sys): nat
    requires |s.chunks| > 0
  {
    Durable(c, s.chunks, s.flushed)
  }

  predicate Enabled(c: Codec, max: int, s: Sys, step: Step)
    requires |s.chunks| > 0
  {
    match step
    case Append(es, flushed) =>
      var r := PutAll(c, max, s.chunks, es);
      && Sound(c, r)
      && Last(s).index + |es| < LONG_LIMIT
      && flushed <= |Content(c, r[|r| - 1])|
      && (|r| == |s.chunks| ==> s.flushed <= flushed)
    case Tear(e, bytes, flushed) =>
      var r := Darken(s.chunks, FrameOf(c, e)[..if bytes <= |FrameOf(c, e)| then bytes else 0]);
      && Sound(c, r)
      && bytes in {HEADER, HEADER + |Payload(c, e)|}
      && s.flushed <= flushed <= |Content(c, r[|r| - 1])|
    case Rotate => Last(s).index + 1 < LONG_LIMIT
    case Read(count) =>
      && s.publisher.Idle? && 0 < count <= |Snapshot(c, s.chunks, s.checkpoint)|
      && s.passed - s.deleted + count <= Safe(c, s)
    case Publish => s.publisher.Holding?
    case Advance(deletions) => s.publisher.Holding? && s.publisher.published && s.publisher.records != []
    case Restart => s.flushed <= |Content(c, Last(s))|
  }

  function Next(c: Codec, max: int, s: Sys, step: Step): Sys
    requires |s.chunks| > 0 && Enabled(c, max, s, step)
  {
    match step
    case Append(es, flushed) =>
      var h := Hidden(c, max, s.chunks, es);
      s.(chunks := PutAll(c, max, s.chunks, es), flushed := flushed, log := s.log + es[h..], lost := s.lost + es[..h])
    case Tear(e, bytes, flushed) =>
      s.(chunks := Darken(s.chunks, FrameOf(c, e)[..bytes]), flushed := flushed)
    case Rotate =>
      s.(chunks := s.chunks + [Chunk(Last(s).index + 1, [], [])], flushed := 0)
    case Read(count) =>
      s.(publisher := Holding(Snapshot(c, s.chunks, s.checkpoint)[..count], false))
    case Publish =>
      var rs := s.publisher.records;
      s.(publisher := Holding(rs, true),
         stream := s.stream + EventsOf(rs),
         delivered := if s.passed + |rs| > s.delivered then s.passed + |rs| else s.delivered)
    case Advance(deletions) =>
      var rs := s.publisher.records;
      var r := rs[|rs| - 1];
      var kept := Drop(s.chunks, r.segmentName, SegmentName(Last(s).index));
      var d := if deletions < |s.chunks| - |kept| then deletions
               else if |kept| <= |s.chunks| then |s.chunks| - |kept| else 0;
      s.(chunks := s.chunks[d..],
         checkpoint := After(r),
         publisher := Idle,
         deleted := s.deleted + |Flat(s.chunks[..d])|,
         passed := s.passed + |rs|)
    case Restart =>
      var chunks := Truncate(c, s.chunks, s.flushed);
      s.(chunks := chunks,
         flushed := |Content(c, chunks[|chunks| - 1])|,
         publisher := Idle,
         log := if s.deleted + |Flat(chunks)| <= |s.log| then s.log[..s.deleted + |Flat(chunks)|] else s.log)
  }

  /** `t` is what a process finds that starts after a crash in `s`. */
  predicate IsRestart(c: Codec, max: int, s: Sys, t: Sys) {
    |s.chunks| > 0 && Enabled(c, max, s, Restart) && t == Next(c, max, s, Restart)
  }

  // ---------- The invariant ----------

  /** What the outbox itself keeps. */
  predicate LogInv(c: Codec, s: Sys) {
    && |s.chunks| > 0
    && Ascending(s.chunks)
    && Sound(c, s.chunks)
    && s.flushed <= |Content(c, Last(s))|
    && s.deleted <= s.passed <= |s.log|
    && Flat(s.chunks) == s.log[s.deleted..]
    && StandsAt(c, s.chunks, s.checkpoint, s.passed - s.deleted)
  }

  /** What the publisher adds: the checkpoint never passes what was delivered, and
      what was delivered is out of the buffer. */
  predicate PublishInv(c: Codec, s: Sys)
    requires LogInv(c, s)
  {
    && s.passed <= s.delivered <= s.deleted + Safe(c, s)
    && s.delivered <= |s.log|
    && Distinct(s.stream) == Distinct(s.log[..s.delivered])
    && (s.publisher.Holding? ==> HoldingInv(c, s))
  }

  predicate HoldingInv(c: Codec, s: Sys)
    requires LogInv(c, s) && s.publisher.Holding?
  {
    var rs, at := s.publisher.records, s.passed - s.deleted;
    && 0 < |rs| <= Safe(c, s) - at
    && at + |rs| <= |AllRecords(c, s.chunks)|
    && rs == AllRecords(c, s.chunks)[at..at + |rs|]
    && (s.publisher.published ==> s.passed + |rs| <= s.delivered)
  }

  predicate Inv(c: Codec, s: Sys) {
    LogInv(c, s) && PublishInv(c, s)
  }

  lemma InitInv(c: Codec)
    ensures Inv(c, INIT)
  {
    NothingIsQuiet(c);
    assert INIT.chunks[..0] == [];
    assert Flat(INIT.chunks) == [] by { assert INIT.chunks[1..] == []; }
  }

  lemma RecordCount(c: Codec, s: Sys)
    requires LogInv(c, s)
    ensures |AllRecords(c, s.chunks)| == |s.log| - s.deleted
    ensures EventsOf(AllRecords(c, s.chunks)) == s.log[s.deleted..]
    ensures Safe(c, s) <= |s.log| - s.deleted
  {
    EventsOfAll(c, s.chunks);
    SplitLast(c, s.chunks);
  }

  /** Bytes that left the buffer stay out: appending never lowers the number of
      durable records. */
  lemma DurableGrows(c: Codec, max: int, chunks: seq<Chunk>, es: seq<ShareEvent>, n: nat, n': nat)
    requires |chunks| > 0 && Ascending(chunks)
    requires chunks[|chunks| - 1].index + |es| < LONG_LIMIT
    requires |PutAll(c, max, chunks, es)| == |chunks| ==> n <= n'
    ensures Durable(c, chunks, n) <= Durable(c, PutAll(c, max, chunks, es), n')
  {
    hide FrameOf, Frames, AllRecords, Flat, PutAll, Fit, Hidden;
    var r, k := PutAll(c, max, chunks, es), |chunks| - 1;
    PutAllAscending(c, max, chunks, es);
    if |r| == |chunks| {
      assert r[..k] == chunks[..k];
      LastGrows(c, max, chunks, es);
      FitMonotone(c, chunks[k].events, n, n');
      FitExtends(c, chunks[k].events, es[Hidden(c, max, chunks, es)..], n');
    } else {
      FlatMonotone(c, max, chunks, es);
      SplitLast(c, chunks);
    }
  }

  lemma LastGrows(c: Codec, max: int, chunks: seq<Chunk>, es: seq<ShareEvent>)
    requires |chunks| > 0 && Ascending(chunks)
    requires chunks[|chunks| - 1].index + |es| < LONG_LIMIT
    requires |PutAll(c, max, chunks, es)| == |chunks|
    ensures
      var r, k := PutAll(c, max, chunks, es), |chunks| - 1;
      r[k].events == chunks[k].events + es[Hidden(c, max, chunks, es)..]
  {
    hide FrameOf, Frames, AllRecords, Flat, PutAll, Fit, Hidden;
    var r, k := PutAll(c, max, chunks, es), |chunks| - 1;
    PutAllAscending(c, max, chunks, es);
    PutAllRecords(c, max, chunks, es);
    assert r[..k] == chunks[..k];
    SplitLast(c, chunks);
    SplitLast(c, r);
    SuffixOfSum(Flat(r[..k]), r[k].events, chunks[k].events, es[Hidden(c, max, chunks, es)..]);
  }

  lemma SuffixOfSum<T>(front: seq<T>, b: seq<T>, a: seq<T>, es: seq<T>)
    requires front + b == (front + a) + es
    ensures b == a + es
  {
    assert b == (front + b)[|front|..];
    assert a + es == ((front + a) + es)[|front|..];
  }

  lemma {:induction false} FitExtends(c: Codec, a: seq<ShareEvent>, b: seq<ShareEvent>, n: nat)
    ensures Fit(c, a, n) <= Fit(c, a + b, n)
    decreases |a|
  {
    hide FrameOf;
    if a != [] && n >= |FrameOf(c, a[0])| {
      assert (a + b)[1..] == a[1..] + b;
      FitExtends(c, a[1..], b, n - |FrameOf(c, a[0])|);
    }
  }

  /** After a rotation all that was logged before it lies in closed segments. */
  lemma {:induction false} FlatMonotone(c: Codec, max: int, chunks: seq<Chunk>, es: seq<ShareEvent>)
    requires |chunks| > 0
    requires |PutAll(c, max, chunks, es)| != |chunks|
    ensures
      var r := PutAll(c, max, chunks, es);
      |Flat(chunks)| <= |Flat(r[..|r| - 1])|
    decreases |es|
  {
    hide FrameOf, Content, Flat, Hidden;
    var before := PutAll(c, max, chunks, es[..|es| - 1]);
    var r := PutAll(c, max, chunks, es);
    if |before| == |r| {
      FlatMonotone(c, max, chunks, es[..|es| - 1]);
      assert r[..|r| - 1] == before[..|before| - 1];
    } else {
      assert r[..|r| - 1] == before;
      PutAllRecords(c, max, chunks, es[..|es| - 1]);
    }
  }

  lemma AppendLogInv(c: Codec, max: int, s: Sys, es: seq<ShareEvent>, flushed: nat)
    requires LogInv(c, s) && Enabled(c, max, s, Append(es, flushed))
    ensures LogInv(c, Next(c, max, s, Append(es, flushed)))
    ensures AllRecords(c, s.chunks) <= AllRecords(c, PutAll(c, max, s.chunks, es))
    ensures Safe(c, s) <= Safe(c, Next(c, max, s, Append(es, flushed)))
  {
    hide FrameOf, Frames, Content, AllRecords, Flat, PutAll, Durable, Hidden, Sound;
    var t := Next(c, max, s, Append(es, flushed));
    PutAllAscending(c, max, s.chunks, es);
    PutAllRecords(c, max, s.chunks, es);
    assert t.log[t.deleted..] == s.log[s.deleted..] + es[Hidden(c, max, s.chunks, es)..];
    DurableGrows(c, max, s.chunks, es, s.flushed, flushed);
  }

  lemma DarkenDurable(c: Codec, chunks: seq<Chunk>, bytes: seq<byte>, n: nat, n': nat)
    requires |chunks| > 0 && n <= n'
    ensures Durable(c, chunks, n) <= Durable(c, Darken(chunks, bytes), n')
  {
    hide FrameOf, Flat, Fit;
    var r, k := Darken(chunks, bytes), |chunks| - 1;
    assert r[..k] == chunks[..k];
    FitMonotone(c, chunks[k].events, n, n');
  }

  lemma TearInv(c: Codec, max: int, s: Sys, e: ShareEvent, bytes: nat, flushed: nat)
    requires Inv(c, s) && Enabled(c, max, s, Tear(e, bytes, flushed))
    ensures Inv(c, Next(c, max, s, Tear(e, bytes, flushed)))
  {
    hide FrameOf, Frames, AllRecords, Flat, Fit, Durable, Distinct, Content, Sound, StandsAt, Ascending, Darken;
    DarkenKeeps(c, s.chunks, FrameOf(c, e)[..bytes]);
    DarkenDurable(c, s.chunks, FrameOf(c, e)[..bytes], s.flushed, flushed);
    var t := Next(c, max, s, Tear(e, bytes, flushed));
    SameStanding(c, s, t);
  }

  lemma SameStanding(c: Codec, s: Sys, t: Sys)
    requires AllRecords(c, s.chunks) == AllRecords(c, t.chunks) && s.deleted <= s.passed
    ensures StandsAt(c, s.chunks, s.checkpoint, s.passed - s.deleted)
      <==> StandsAt(c, t.chunks, s.checkpoint, s.passed - s.deleted)
  {
  }

  lemma AppendInv(c: Codec, max: int, s: Sys, es: seq<ShareEvent>, flushed: nat)
    requires Inv(c, s) && Enabled(c, max, s, Append(es, flushed))
    ensures Inv(c, Next(c, max, s, Append(es, flushed)))
  {
    hide FrameOf, Frames, AllRecords, Flat, PutAll, Durable, Distinct, Enabled, StandsAt, Ascending;
    AppendLogInv(c, max, s, es, flushed);
    var t := Next(c, max, s, Append(es, flushed));
    assert t.log[..t.delivered] == s.log[..s.delivered];
    if s.publisher.Holding? {
      var at, n := s.passed - s.deleted, |s.publisher.records|;
      PrefixSlice(AllRecords(c, s.chunks), AllRecords(c, t.chunks), at, at + n);
    }
  }

  lemma PrefixSlice<T>(a: seq<T>, b: seq<T>, i: nat, j: nat)
    requires a <= b && i <= j <= |a|
    ensures a[i..j] == b[i..j]
  {
  }

  /** Opening a segment, also when the append that caused it goes no further. */
  lemma RotateInv(c: Codec, max: int, s: Sys)
    requires Inv(c, s) && Enabled(c, max, s, Rotate)
    ensures Inv(c, Next(c, max, s, Rotate))
  {
    hide FrameOf, AllRecords, Flat, Distinct, Frames, Fit, Durable, Quiet, AllStorable;
    var added := Chunk(Last(s).index + 1, [], []);
    RotateRecords(c, s.chunks, added);
    EventsOfAll(c, s.chunks);
    RecordCount(c, s);
    RotateSound(c, s.chunks, added);
  }

  lemma RotateSound(c: Codec, chunks: seq<Chunk>, added: Chunk)
    requires Sound(c, chunks) && added.events == [] && added.dark == []
    ensures Sound(c, chunks + [added])
  {
    NothingIsQuiet(c);
    hide Quiet;
  }

  lemma RotateRecords(c: Codec, chunks: seq<Chunk>, added: Chunk)
    requires |chunks| > 0 && added.events == []
    ensures AllRecords(c, chunks + [added]) == AllRecords(c, chunks)
    ensures Flat(chunks + [added]) == Flat(chunks)
    ensures Durable(c, chunks + [added], 0) == |Flat(chunks)|
  {
    hide FrameOf, AllRecords, Flat;
    AddEmpty(c, chunks, added);
    assert (chunks + [added])[..|chunks|] == chunks;
  }

  lemma ReadInv(c: Codec, max: int, s: Sys, count: nat)
    requires Inv(c, s) && Enabled(c, max, s, Read(count))
    ensures Inv(c, Next(c, max, s, Read(count)))
  {
    hide FrameOf, Frames, AllRecords, Flat, Distinct, Durable, Snapshot, Ascending, Sound, Content;
    SnapshotIsSuffix(c, s.chunks, s.checkpoint, s.passed - s.deleted);
    RecordCount(c, s);
  }

  lemma LogInvSame(c: Codec, s: Sys, t: Sys)
    requires LogInv(c, s)
    requires t == s.(publisher := t.publisher, stream := t.stream, delivered := t.delivered)
    ensures LogInv(c, t) && Safe(c, t) == Safe(c, s)
  {
    hide Frames, AllRecords, Flat, Durable, StandsAt, Ascending;
  }

  /** Some records in the middle bring the events in the middle of the log. */
  lemma LogSlice(all: seq<OutboxRecord>, log: seq<ShareEvent>, deleted: nat, at: nat, n: nat)
    requires deleted <= |log| && EventsOf(all) == log[deleted..] && at + n <= |all|
    ensures EventsOf(all[at..at + n]) == log[deleted + at..deleted + at + n]
  {
    assert EventsOf(all[at..at + n]) == EventsOf(all)[at..at + n];
  }

  lemma PublishInvStep(c: Codec, max: int, s: Sys)
    requires Inv(c, s) && Enabled(c, max, s, Publish)
    ensures Inv(c, Next(c, max, s, Publish))
  {
    hide FrameOf, AllRecords, Flat, Distinct, Frames, Durable, StandsAt, Ascending, Sound, Content;
    var rs, at := s.publisher.records, s.passed - s.deleted;
    RecordCount(c, s);
    LogInvSame(c, s, Next(c, max, s, Publish));
    LogSlice(AllRecords(c, s.chunks), s.log, s.deleted, at, |rs|);
    DistinctReplay(s.stream, s.log, s.delivered, s.passed, s.passed + |rs|);
  }

  lemma {:induction false} FlatPrefix(chunks: seq<Chunk>, i: nat, j: nat)
    requires i <= j <= |chunks|
    ensures |Flat(chunks[..i])| <= |Flat(chunks[..j])|
  {
    hide Flat;
    assert chunks[..j] == chunks[..i] + chunks[i..j];
    FlatConcat(chunks[..i], chunks[i..j]);
  }

  lemma DropDurable(c: Codec, s: Sys, t: Sys, d: nat)
    requires d < |s.chunks| && t.chunks == s.chunks[d..] && t.flushed == s.flushed
    ensures Safe(c, s) == |Flat(s.chunks[..d])| + Safe(c, t)
  {
    hide Flat, Fit;
    var n := |s.chunks| - 1;
    assert s.chunks[..n] == s.chunks[..d] + s.chunks[d..n];
    assert t.chunks[..|t.chunks| - 1] == s.chunks[d..n];
    FlatConcat(s.chunks[..d], s.chunks[d..n]);
  }

  /** Advancing deletes some closed segments before the published record's own. */
  lemma AdvanceShape(c: Codec, max: int, s: Sys, deletions: nat) returns (d: nat)
    requires Inv(c, s) && Enabled(c, max, s, Advance(deletions))
    ensures s.publisher.Holding?
    ensures d < |s.chunks| && Next(c, max, s, Advance(deletions)).chunks == s.chunks[d..]
    ensures |Flat(s.chunks[..d])| < s.passed - s.deleted + |s.publisher.records|
    ensures deletions >= |s.chunks| ==>
      s.chunks[d..] == Drop(s.chunks, s.publisher.records[|s.publisher.records| - 1].segmentName, SegmentName(Last(s).index))
  {
    hide FrameOf, AllRecords, Flat, Distinct, Frames, Fit, Drop, SegmentName, Durable;
    var rs, at := s.publisher.records, s.passed - s.deleted;
    var p := at + |rs| - 1;
    assert rs[|rs| - 1] == AllRecords(c, s.chunks)[p];
    var k := Locate(c, s.chunks, p);
    forall i | 0 <= i < k ensures SegmentName(s.chunks[i].index) != SegmentName(Last(s).index) {
      NameOrder(s.chunks[i].index, Last(s).index);
    }
    DropIsSuffix(s.chunks, k, SegmentName(Last(s).index));
    d := |s.chunks| - |Next(c, max, s, Advance(deletions)).chunks|;
    FlatPrefix(s.chunks, d, k);
  }

  /** The log invariant survives when the first d segments, all passed, go. */
  lemma DropLogInv(c: Codec, s: Sys, t: Sys, d: nat, p: nat)
    requires LogInv(c, s)
    requires d < |s.chunks| && t.chunks == s.chunks[d..] && t.flushed == s.flushed && t.log == s.log
    requires |Flat(s.chunks[..d])| <= p < |AllRecords(c, s.chunks)|
    requires t.checkpoint == After(AllRecords(c, s.chunks)[p])
    requires t.deleted == s.deleted + |Flat(s.chunks[..d])| && t.passed == s.deleted + p + 1
    ensures LogInv(c, t)
  {
    hide AllRecords, Flat, Content, Ascending, Sound;
    DropFront(c, s.chunks, d);
    LaterSegments(c, s.chunks, d);
    RecordCount(c, s);
    var gone := |Flat(s.chunks[..d])|;
    assert t.log[t.deleted..] == s.log[s.deleted..][gone..];
    assert AllRecords(c, t.chunks)[p - gone] == AllRecords(c, s.chunks)[p];
  }

  lemma AdvanceInv(c: Codec, max: int, s: Sys, deletions: nat)
    requires Inv(c, s) && Enabled(c, max, s, Advance(deletions))
    ensures Inv(c, Next(c, max, s, Advance(deletions)))
  {
    hide FrameOf, AllRecords, Flat, Frames, Fit, Durable, Next, Enabled, Distinct, Ascending, StandsAt;
    var d := AdvanceShape(c, max, s, deletions);
    var t := Next(c, max, s, Advance(deletions));
    AdvanceHistory(s, c, max, deletions, d);
    DropLogInv(c, s, t, d, s.passed - s.deleted + |s.publisher.records| - 1);
    DropDurable(c, s, t, d);
  }

  /** What an advance does besides the listing. */
  lemma AdvanceHistory(s: Sys, c: Codec, max: int, deletions: nat, d: nat)
    requires Inv(c, s) && Enabled(c, max, s, Advance(deletions))
    requires d < |s.chunks| && Next(c, max, s, Advance(deletions)).chunks == s.chunks[d..]
    ensures
      var t, rs := Next(c, max, s, Advance(deletions)), s.publisher.records;
      && t == s.(chunks := s.chunks[d..], checkpoint := After(rs[|rs| - 1]), publisher := Idle,
                 deleted := s.deleted + |Flat(s.chunks[..d])|, passed := s.passed + |rs|)
      && rs[|rs| - 1] == AllRecords(c, s.chunks)[s.passed - s.deleted + |rs| - 1]
      && s.passed + |rs| <= s.delivered
  {
    hide FrameOf, AllRecords, Flat, Frames, Fit, Durable, Distinct, Drop, SegmentName;
    assert |s.chunks[d..]| == |s.chunks| - d;
  }

  /** A crash loses exactly the records still in the buffer, and recovery leads
      back into the invariant. */
  lemma RestartInv(c: Codec, max: int, s: Sys)
    requires Lawful(c) && Inv(c, s)
    ensures Enabled(c, max, s, Restart)
    ensures Inv(c, Next(c, max, s, Restart))
    ensures Next(c, max, s, Restart).log <= s.log
    ensures |Next(c, max, s, Restart).log| == s.deleted + Safe(c, s)
  {
    hide FrameOf, AllRecords, Flat, Distinct, Frames, Durable, Truncate, Content, Sound;
    var t := Next(c, max, s, Restart);
    TruncateRecords(c, s.chunks, s.flushed);
    TruncateIsSound(c, s.chunks, s.flushed);
    RecordCount(c, s);
    assert t.log == s.log[..s.deleted + Safe(c, s)];
    assert t.log[t.deleted..] == s.log[s.deleted..][..Safe(c, s)];
    assert t.log[..t.delivered] == s.log[..s.delivered];
  }

  /** Every step of the protocol keeps the invariant. */
  lemma StepInv(c: Codec, max: int, s: Sys, step: Step)
    requires Lawful(c) && Inv(c, s) && Enabled(c, max, s, step)
    ensures Inv(c, Next(c, max, s, step))
  {
    match step
    case Append(es, flushed) => AppendInv(c, max, s, es, flushed);
    case Tear(e, bytes, flushed) => TearInv(c, max, s, e, bytes, flushed);
    case Rotate => RotateInv(c, max, s);
    case Read(count) => ReadInv(c, max, s, count);
    case Publish => PublishInvStep(c, max, s);
    case Advance(deletions) => AdvanceInv(c, max, s, deletions);
    case Restart => RestartInv(c, max, s);
  }

  // ---------- Every run ----------

  predicate IsRun(c: Codec, max: int, s: Sys, steps: seq<Step>)
    decreases |steps|
  {
    steps == [] ||
    (|s.chunks| > 0 && Enabled(c, max, s, steps[0]) && IsRun(c, max, Next(c, max, s, steps[0]), steps[1..]))
  }

  function Exec(c: Codec, max: int, s: Sys, steps: seq<Step>): Sys
    requires IsRun(c, max, s, steps)
    decreases |steps|
  {
    if steps == [] then s else Exec(c, max, Next(c, max, s, steps[0]), steps[1..])
  }

  lemma {:induction false} RunInv(c: Codec, max: int, s: Sys, steps: seq<Step>)
    requires Lawful(c) && Inv(c, s) && IsRun(c, max, s, steps)
    ensures Inv(c, Exec(c, max, s, steps))
    decreases |steps|
  {
    hide PublishInv, Next, Enabled;
    if steps != [] {
      StepInv(c, max, s, steps[0]);
      RunInv(c, max, Next(c, max, s, steps[0]), steps[1..]);
    }
  }

  /** The promise of the pipeline up to the stream. The stream without repeats is a
      beginning of the log without repeats; every record at or after the checkpoint
      can still be read; no record is passed by the checkpoint, let alone deleted,
      before it was delivered; and once a snapshot is empty, stream and log agree. */
  predicate AtLeastOnceInOrder(c: Codec, s: Sys)
  {
    && Distinct(s.stream) <= Distinct(s.log)
    && s.deleted <= s.passed <= s.delivered <= |s.log|
    && Distinct(s.stream) == Distinct(s.log[..s.delivered])
    && EventsOf(Snapshot(c, s.chunks, s.checkpoint)) == s.log[s.passed..]
    && (Snapshot(c, s.chunks, s.checkpoint) == [] ==> Distinct(s.stream) == Distinct(s.log))
  }

  lemma InvDelivers(c: Codec, s: Sys)
    requires Inv(c, s)
    ensures AtLeastOnceInOrder(c, s)
  {
    hide FrameOf, AllRecords, Flat, Frames, Fit, Snapshot, Distinct, Durable;
    var at := s.passed - s.deleted;
    DistinctPrefix(s.log, s.delivered);
    SnapshotIsSuffix(c, s.chunks, s.checkpoint, at);
    RecordCount(c, s);
    var rs := AllRecords(c, s.chunks);
    assert EventsOf(rs[at..]) == EventsOf(rs)[at..] == s.log[s.deleted..][at..] == s.log[s.passed..];
    if Snapshot(c, s.chunks, s.checkpoint) == [] {
      assert s.log[..s.delivered] == s.log;
    }
  }

  lemma DeliveryOverEveryRun(c: Codec, max: int, steps: seq<Step>)
    requires Lawful(c) && IsRun(c, max, INIT, steps)
    ensures AtLeastOnceInOrder(c, Exec(c, max, INIT, steps))
  {
    hide AtLeastOnceInOrder, Inv, IsRun, Exec;
    InitInv(c);
    RunInv(c, max, INIT, steps);
    InvDelivers(c, Exec(c, max, INIT, steps));
  }

  /** A crash at any point of any run loses only records never handed out of the
      buffer: whatever was delivered stays logged, and the delivered part is
      untouched. */
  lemma CrashLosesOnlyBuffered(c: Codec, max: int, steps: seq<Step>)
    requires Lawful(c) && IsRun(c, max, INIT, steps)
    ensures
      var s := Exec(c, max, INIT, steps);
      && |s.chunks| > 0 && Enabled(c, max, s, Restart)
      && var t := Next(c, max, s, Restart);
      && t.log <= s.log
      && |t.log| == s.deleted + Safe(c, s)
      && s.delivered <= |t.log|
      && t.stream == s.stream
  {
    hide Enabled, Next, Distinct, AllRecords, Flat, Frames;
    InitInv(c);
    RunInv(c, max, INIT, steps);
    RestartInv(c, max, Exec(c, max, INIT, steps));
    RestartKeepsStream(c, max, Exec(c, max, INIT, steps));
  }

  lemma RestartKeepsStream(c: Codec, max: int, s: Sys)
    requires |s.chunks| > 0 && Enabled(c, max, s, Restart)
    ensures Next(c, max, s, Restart).stream == s.stream
  {
  }

  /** Some segment of the listing has this number. */
  predicate Listed(chunks: seq<Chunk>, index: int) {
    exists i :: 0 <= i < |chunks| && chunks[i].index == index
  }

  /** `r` brings no number back: what is new in it lies above all there was, and the
      highest number has not fallen. */
  predicate NumbersGrow(chunks: seq<Chunk>, r: seq<Chunk>) {
    && 0 < |chunks| && 0 < |r|
    && chunks[|chunks| - 1].index <= r[|r| - 1].index
    && (forall i | 0 <= i < |r| :: Listed(chunks, r[i].index) || r[i].index > chunks[|chunks| - 1].index)
  }

  lemma PutAllNumbers(c: Codec, max: int, chunks: seq<Chunk>, es: seq<ShareEvent>)
    requires |chunks| > 0 && Ascending(chunks)
    requires chunks[|chunks| - 1].index + |es| < LONG_LIMIT
    ensures NumbersGrow(chunks, PutAll(c, max, chunks, es))
  {
    hide PutAll;
    PutAllAscending(c, max, chunks, es);
    var r, n := PutAll(c, max, chunks, es), |chunks|;
    forall i | 0 <= i < |r| ensures Listed(chunks, r[i].index) || r[i].index > chunks[n - 1].index {
      if i < n {
        assert chunks[i].index == r[i].index;
      } else {
        assert r[n - 1].index < r[i].index;
      }
    }
  }

  lemma SuffixNumbers(chunks: seq<Chunk>, d: nat)
    requires d < |chunks|
    ensures NumbersGrow(chunks, chunks[d..])
  {
    assert forall i | 0 <= i < |chunks| - d :: chunks[d + i] == chunks[d..][i];
    assert forall i | 0 <= i < |chunks| :: Listed(chunks, chunks[i].index);
  }

  lemma AddedNumber(chunks: seq<Chunk>, added: Chunk)
    requires 0 < |chunks| && added.index > chunks[|chunks| - 1].index
    ensures NumbersGrow(chunks, chunks + [added])
  {
    assert forall i | 0 <= i < |chunks| :: Listed(chunks, chunks[i].index);
  }

  lemma SameNumbers(chunks: seq<Chunk>, r: seq<Chunk>)
    requires 0 < |chunks| == |r|
    requires forall i | 0 <= i < |r| :: r[i].index == chunks[i].index
    ensures NumbersGrow(chunks, r)
  {
    assert forall i | 0 <= i < |chunks| :: Listed(chunks, chunks[i].index);
  }

  lemma AdvanceNumbers(c: Codec, max: int, s: Sys, deletions: nat)
    requires Inv(c, s) && Enabled(c, max, s, Advance(deletions))
    ensures NumbersGrow(s.chunks, Next(c, max, s, Advance(deletions)).chunks)
  {
    hide Enabled, Next, Inv, NumbersGrow;
    var d := AdvanceShape(c, max, s, deletions);
    SuffixNumbers(s.chunks, d);
  }

  lemma RestartNumbers(c: Codec, max: int, s: Sys)
    requires |s.chunks| > 0 && Enabled(c, max, s, Restart)
    ensures NumbersGrow(s.chunks, Next(c, max, s, Restart).chunks)
  {
    hide Flat, Content, Cut, Mend, NumbersGrow;
    SameNumbers(s.chunks, Next(c, max, s, Restart).chunks);
  }

  /** No step brings a number back; in particular the current segment, which has the
      highest number, is never removed. */
  lemma StepNumbers(c: Codec, max: int, s: Sys, step: Step)
    requires Inv(c, s) && Enabled(c, max, s, step)
    ensures NumbersGrow(s.chunks, Next(c, max, s, step).chunks)
  {
    hide Flat, Content, FrameOf, Frames, AllRecords, Drop, PutAll, Hidden, Durable, NumbersGrow, Snapshot, Truncate, Sound,
         PublishInv, StandsAt;
    match step
    case Append(es, flushed) => PutAllNumbers(c, max, s.chunks, es);
    case Tear(_, _, _) => SameNumbers(s.chunks, Next(c, max, s, step).chunks);
    case Rotate => AddedNumber(s.chunks, Next(c, max, s, step).chunks[|s.chunks|]);
    case Read(_) => SameNumbers(s.chunks, s.chunks);
    case Publish => SameNumbers(s.chunks, s.chunks);
    case Advance(deletions) => AdvanceNumbers(c, max, s, deletions);
    case Restart => RestartNumbers(c, max, s);
  }

  /** Over every run, restarts included, a segment number that left the listing never
      comes back. */
  lemma {:induction false} NumbersNeverReused(c: Codec, max: int, s: Sys, steps: seq<Step>, index: nat)
    requires Lawful(c) && Inv(c, s) && IsRun(c, max, s, steps)
    requires index <= Last(s).index && !Listed(s.chunks, index)
    ensures !Listed(Exec(c, max, s, steps).chunks, index)
    decreases |steps|
  {
    if steps != [] {
      hide Next, Enabled, PublishInv;
      StepInv(c, max, s, steps[0]);
      StepNumbers(c, max, s, steps[0]);
      NumbersNeverReused(c, max, Next(c, max, s, steps[0]), steps[1..], index);
    }
  }

  // ---------- What tears cost ----------

  /** No segment has a torn record in it. */
  predicate Light(chunks: seq<Chunk>) {
    forall i | 0 <= i < |chunks| :: chunks[i].dark == []
  }

  lemma {:induction false} PutAllLight(c: Codec, max: int, chunks: seq<Chunk>, es: seq<ShareEvent>)
    requires |chunks| > 0 && Light(chunks)
    ensures Light(PutAll(c, max, chunks, es))
    decreases |es|
  {
    hide Content, FrameOf;
    if es != [] { PutAllLight(c, max, chunks, es[..|es| - 1]); }
  }

  lemma CutLight(c: Codec, chunks: seq<Chunk>, n: nat)
    requires |chunks| > 0 && Light(chunks) && n <= |Content(c, chunks[|chunks| - 1])|
    ensures Light(Truncate(c, chunks, n))
  {
    hide Content, Cut, Mend;
    OneMend(CutLast(c, chunks, n));
  }

  lemma LightStep(c: Codec, max: int, s: Sys, step: Step)
    requires Inv(c, s) && Enabled(c, max, s, step) && Light(s.chunks) && !step.Tear?
    ensures Light(Next(c, max, s, step).chunks) && Next(c, max, s, step).lost == s.lost
  {
    hide Flat, Content, FrameOf, Frames, AllRecords, Drop, PutAll, Hidden, Durable, Snapshot, Truncate, Sound, PublishInv,
         StandsAt;
    match step
    case Append(es, flushed) =>
      PutAllLight(c, max, s.chunks, es);
      PutAllRecords(c, max, s.chunks, es);
      assert es[..0] == [] && s.lost + [] == s.lost;
    case Restart => CutLight(c, s.chunks, s.flushed);
    case _ =>
  }

  /** Over every run without a cancellation inside a record, crashes included, no record
      is ever written where a reader does not get. */
  lemma {:induction false} NothingLostWithoutTear(c: Codec, max: int, s: Sys, steps: seq<Step>)
    requires Lawful(c) && Inv(c, s) && IsRun(c, max, s, steps) && Light(s.chunks)
    requires forall i | 0 <= i < |steps| :: !steps[i].Tear?
    ensures Light(Exec(c, max, s, steps).chunks) && Exec(c, max, s, steps).lost == s.lost
    decreases |steps|
  {
    hide PublishInv, Next, Enabled, Light;
    if steps != [] {
      LightStep(c, max, s, steps[0]);
      StepInv(c, max, s, steps[0]);
      NothingLostWithoutTear(c, max, Next(c, max, s, steps[0]), steps[1..]);
    }
  }

  // ---------- A run ----------

  /** The promises above are not empty: with the sample codec any text is logged, read,
      published and passed. */
  lemma RunsExist(id: string, max: int) returns (steps: seq<Step>)
    requires IsText(id)
    ensures Lawful(SAMPLE_CODEC) && IsRun(SAMPLE_CODEC, max, INIT, steps)
    ensures
      var t := Exec(SAMPLE_CODEC, max, INIT, steps);
      t.stream == [Sample(id)] && t.log == [Sample(id)] && t.passed == 1 && t.publisher == Idle
  {
    SampleCodecIsLawful();
    var c, e := SAMPLE_CODEC, Sample(id);
    var s := FirstAppend(c, max, e);
    var run := [Read(1), Publish, Advance(0)];
    Delivers(c, max, s, e);
    steps := [Append([e], |FrameOf(c, e)|)] + run;
    assert steps[1..] == run;
  }

  /** An outbox that holds one event, none of it read yet. */
  predicate HoldsOne(c: Codec, s: Sys, e: ShareEvent) {
    && s.chunks == [Chunk(1, [e], [])] && s.flushed == |FrameOf(c, e)|
    && s == INIT.(chunks := s.chunks, flushed := s.flushed, log := [e])
  }

  lemma FirstAppend(c: Codec, max: int, e: ShareEvent) returns (s: Sys)
    requires Storable(c, e)
    ensures Enabled(c, max, INIT, Append([e], |FrameOf(c, e)|)) && s == Next(c, max, INIT, Append([e], |FrameOf(c, e)|))
    ensures HoldsOne(c, s, e)
  {
    InitInv(c);
    hide FrameOf, Quiet;
    var es, chunks := [e], INIT.chunks;
    assert es[..0] == [] && es == [] + [e];
    assert Content(c, chunks[0]) == [];
    assert PutAll(c, max, chunks, es[..0]) == chunks;
    assert chunks[..0] == [];
    var r := PutAll(c, max, chunks, es);
    assert r == [Chunk(1, [e], [])];
    OneFrame(c, e);
    assert Content(c, r[0]) == FrameOf(c, e) + [] == FrameOf(c, e);
    assert es[0..] == es && [] + es == es;
    assert Hidden(c, max, chunks, es[..0]) == 0;
    s := Next(c, max, INIT, Append(es, |FrameOf(c, e)|));
  }

  lemma Delivers(c: Codec, max: int, s: Sys, e: ShareEvent)
    requires HoldsOne(c, s, e)
    ensures
      var run := [Read(1), Publish, Advance(0)];
      && IsRun(c, max, s, run)
      && Exec(c, max, s, run).stream == [e] && Exec(c, max, s, run).log == [e]
      && Exec(c, max, s, run).passed == 1 && Exec(c, max, s, run).publisher == Idle
  {
    hide FrameOf, Drop, SegmentName, Records;
    var chunks := s.chunks;
    OneFrame(c, e);
    FitBound(c, [e], s.flushed);
    assert chunks[..0] == [] && chunks[1..] == [];
    SnapshotIsSuffix(c, chunks, s.checkpoint, 0);
    var rs := AllRecords(c, chunks);
    EventsOfAll(c, chunks);
    assert rs[0..] == rs && rs[..1] == rs && |rs| == 1;
    assert Flat(chunks) == [e] + [] == [e];
    hide AllRecords, Flat, Snapshot, Fit, Content;
    assert Enabled(c, max, s, Read(1));
    var s2 := Next(c, max, s, Read(1));
    assert Enabled(c, max, s2, Publish);
    var s3 := Next(c, max, s2, Publish);
    assert Enabled(c, max, s3, Advance(0));
    var s4 := Next(c, max, s3, Advance(0));
    RunOfThree(c, max, s, Read(1), Publish, Advance(0));
  }

  lemma RunOfThree(c: Codec, max: int, s: Sys, a: Step, b: Step, d: Step)
    requires |s.chunks| > 0 && Enabled(c, max, s, a)
    requires |Next(c, max, s, a).chunks| > 0 && Enabled(c, max, Next(c, max, s, a), b)
    requires
      var t := Next(c, max, Next(c, max, s, a), b);
      |t.chunks| > 0 && Enabled(c, max, t, d)
    ensures IsRun(c, max, s, [a, b, d])
    ensures Exec(c, max, s, [a, b, d]) == Next(c, max, Next(c, max, Next(c, max, s, a), b), d)
  {
    hide Enabled, Next;
    var one := Next(c, max, s, a);
    var two := Next(c, max, one, b);
    var three := Next(c, max, two, d);
    assert [a, b, d][1..] == [b, d] && [b, d][1..] == [d] && [d][1..] == [];
    assert IsRun(c, max, three, []) && Exec(c, max, three, []) == three;
    assert IsRun(c, max, two, [d]) && Exec(c, max, two, [d]) == three;
    assert IsRun(c, max, one, [b, d]) && Exec(c, max, one, [b, d]) == three;
  }
}
