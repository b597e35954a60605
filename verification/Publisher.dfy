/** ShareEventOutboxPublisher: read from the checkpoint, publish with retry, advance.
    Every state it brings the outbox and the stream into is a reachable state of the
    protocol, for every cancellation schedule, every behaviour of the transport, and
    any appends by the writer, cancelled ones included, at each await. */
module Publisher {
  import opened Contracts
  import opened Cancellation
  import opened Checksums
  import opened Dedup
  import opened Framing
  import opened SegmentNames
  import opened Reader
  import opened Log
  import opened Wal
  import opened Outbox
  import opened Protocol

  datatype PublishResult = Published | NotPublished | PublishThrew

  /** The broker: a batch may reach the stream although the caller learns of a
      failure, but a reported success means it is there. `failures` is how often it will
      still not confirm; every finite behaviour has such a number. */
  class Transport {
    var stream: seq<ShareEvent>
    var failures: nat

    method PublishAsync(batch: seq<ShareEvent>, ct: CancellationToken) returns (result: PublishResult)
      modifies this, ct
      ensures stream == old(stream) || stream == old(stream) + batch
      ensures result == Published ==> stream == old(stream) + batch && failures == old(failures)
      ensures result != Published ==> old(ct.looks) == 0 || failures + 1 == old(failures)
      ensures old(ct.looks) == 0 ==> result != Published && stream == old(stream) && failures == old(failures)
      ensures ct.looks == if old(ct.looks) == 0 then 0 else old(ct.looks) - 1
    {
      var cancelled := ct.IsCancellationRequested();
      if cancelled {
        return PublishThrew;
      }
      var confirms: bool := *;
      if confirms || failures == 0 {
        stream := stream + batch;
        return Published;
      }
      failures := failures - 1;
      var arrives: bool := *;
      if arrives {
        stream := stream + batch;
      }
      if * { result := NotPublished; } else { result := PublishThrew; }
    }
  }

  /** The batch a number of times. */
  function Times(batch: seq<ShareEvent>, m: nat): (r: seq<ShareEvent>)
    ensures m > 0 && batch != [] ==> r != []
  {
    if m == 0 then [] else Times(batch, m - 1) + batch
  }

  // ---------- Runs, one after the other ----------

  lemma {:induction false} RunConcat(c: Codec, max: int, s: Sys, steps: seq<Step>, more: seq<Step>)
    requires IsRun(c, max, s, steps) && IsRun(c, max, Exec(c, max, s, steps), more)
    ensures IsRun(c, max, s, steps + more)
    ensures Exec(c, max, s, steps + more) == Exec(c, max, Exec(c, max, s, steps), more)
    decreases |steps|
  {
    hide Enabled, Next;
    if steps == [] {
      assert steps + more == more;
    } else {
      assert (steps + more)[1..] == steps[1..] + more;
      RunConcat(c, max, Next(c, max, s, steps[0]), steps[1..], more);
    }
  }

  lemma OneStep(c: Codec, max: int, s: Sys, step: Step)
    requires |s.chunks| > 0 && Enabled(c, max, s, step)
    ensures IsRun(c, max, s, [step]) && Exec(c, max, s, [step]) == Next(c, max, s, step)
  {
    hide Enabled, Next;
    assert [step][1..] == [];
  }

  // ---------- An append as steps of the protocol ----------

  /** `t` is `s` with more in the log. */
  predicate OnlyAppended(c: Codec, s: Sys, t: Sys) {
    && |s.chunks| > 0 && |t.chunks| > 0
    && t == s.(chunks := t.chunks, flushed := t.flushed, log := t.log, lost := t.lost)
    && s.log <= t.log
    && Safe(c, s) <= Safe(c, t)
    && AllRecords(c, s.chunks) <= AllRecords(c, t.chunks)
  }

  /** `t` is `s` some appends later, as far as a publisher is concerned. */
  predicate Waited(s: Sys, t: Sys) {
    s.log <= t.log && t.passed == s.passed && t.stream == s.stream && t.checkpoint == s.checkpoint
  }

  lemma AppendedAgain(c: Codec, a: Sys, b: Sys, d: Sys)
    requires OnlyAppended(c, a, b) && OnlyAppended(c, b, d)
    ensures OnlyAppended(c, a, d)
  {
    hide AllRecords, Durable;
  }

  lemma LastGrown(c: Codec, a: seq<Chunk>, b: seq<Chunk>)
    requires 0 < |a| == |b| && AllGrown(c, a, b)
    ensures |Content(c, a[|a| - 1])| <= |Content(c, b[|b| - 1])|
  {
    hide Content;
    assert Grown(c, a[|a| - 1], b[|b| - 1]);
  }

  lemma AppendStep(c: Codec, max: int, s: Sys, es: seq<ShareEvent>, flushed: nat) returns (t: Sys)
    requires Inv(c, s) && Lawful(c)
    requires Last(s).index + |es| < LONG_LIMIT && Sound(c, PutAll(c, max, s.chunks, es))
    requires
      var r := PutAll(c, max, s.chunks, es);
      flushed <= |Content(c, r[|r| - 1])| && (|r| == |s.chunks| ==> s.flushed <= flushed)
    ensures IsRun(c, max, s, [Append(es, flushed)]) && t == Exec(c, max, s, [Append(es, flushed)])
    ensures Inv(c, t) && OnlyAppended(c, s, t)
    ensures t.chunks == PutAll(c, max, s.chunks, es) && t.flushed == flushed
    ensures
      var h := Hidden(c, max, s.chunks, es);
      t.log == s.log + es[h..] && t.lost == s.lost + es[..h]
    ensures Last(t).index <= Last(s).index + |es|
  {
    hide PutAll, Content, Sound, Durable, AllRecords, Flat, Hidden, PublishInv, Quiet, StandsAt, Ascending;
    var step := Append(es, flushed);
    OneStep(c, max, s, step);
    StepInv(c, max, s, step);
    AppendLogInv(c, max, s, es, flushed);
    PutAllAscending(c, max, s.chunks, es);
    t := Next(c, max, s, step);
  }

  lemma RotateStep(c: Codec, max: int, s: Sys) returns (t: Sys)
    requires Inv(c, s) && Lawful(c) && Last(s).index + 1 < LONG_LIMIT
    ensures IsRun(c, max, s, [Rotate]) && t == Exec(c, max, s, [Rotate])
    ensures Inv(c, t) && OnlyAppended(c, s, t)
    ensures t.chunks == s.chunks + [Chunk(Last(s).index + 1, [], [])] && t.flushed == 0
    ensures t.log == s.log && t.lost == s.lost
  {
    hide Content, Sound, AllRecords, Flat, PublishInv, StandsAt, Ascending, Durable;
    OneStep(c, max, s, Rotate);
    StepInv(c, max, s, Rotate);
    RotateRecords(c, s.chunks, Chunk(Last(s).index + 1, [], []));
    RecordCount(c, s);
    EventsOfAll(c, s.chunks);
    t := Next(c, max, s, Rotate);
  }

  lemma TearStep(c: Codec, max: int, s: Sys, e: ShareEvent, bytes: nat, flushed: nat) returns (t: Sys)
    requires Inv(c, s) && Lawful(c) && bytes in {HEADER, HEADER + |Payload(c, e)|}
    requires
      var r := Darken(s.chunks, FrameOf(c, e)[..bytes]);
      Sound(c, r) && s.flushed <= flushed <= |Content(c, r[|r| - 1])|
    ensures IsRun(c, max, s, [Tear(e, bytes, flushed)]) && t == Exec(c, max, s, [Tear(e, bytes, flushed)])
    ensures Inv(c, t) && OnlyAppended(c, s, t)
    ensures t.chunks == Darken(s.chunks, FrameOf(c, e)[..bytes]) && t.flushed == flushed
    ensures t.log == s.log && t.lost == s.lost
  {
    hide Content, Sound, AllRecords, Flat, PublishInv, StandsAt, Ascending, Durable, FrameOf, Darken, Payload;
    var step := Tear(e, bytes, flushed);
    OneStep(c, max, s, step);
    StepInv(c, max, s, step);
    DarkenKeeps(c, s.chunks, FrameOf(c, e)[..bytes]);
    DarkenDurable(c, s.chunks, FrameOf(c, e)[..bytes], s.flushed, flushed);
    t := Next(c, max, s, step);
  }

  /** What an append leaves, as two stages: the whole records, then a segment opened for
      the next one and its first bytes. */
  lemma Stages(c: Codec, max: int, chunks: seq<Chunk>, events: seq<ShareEvent>, looks: nat)
    requires |chunks| > 0
    ensures
      var w := RecordsWritten(looks, LeadingValid(c, events));
      var r, final := PutAll(c, max, chunks, events[..w]), Appending(c, max, chunks, events, looks);
      && AllGrown(c, chunks, r) && AllGrown(c, r, final)
      && (r != final ==> w < |events| && var room := MakeRoom(c, max, r, events[w]);
            && AllGrown(c, room, final)
            && (final == room || (Tears(looks, LeadingValid(c, events))
                && final == Darken(room, FrameOf(c, events[w])[..TornLength(c, looks, events[w])]))))
  {
    hide PutAll, FrameOf, Frames, LeadingValid, Payload;
    var w := RecordsWritten(looks, LeadingValid(c, events));
    var r := PutAll(c, max, chunks, events[..w]);
    PutAllGrows(c, max, chunks, events[..w]);
    NotGrown(c, r);
  }

  /** Any append, however it was cancelled, is a run of the protocol. */
  lemma AppendRun(c: Codec, max: int, s: Sys, events: seq<ShareEvent>, looks: nat, flushed: nat)
    returns (steps: seq<Step>, t: Sys)
    requires Inv(c, s) && Lawful(c) && Last(s).index + |events| < LONG_LIMIT
    requires Sound(c, Appending(c, max, s.chunks, events, looks))
    requires
      var r := Appending(c, max, s.chunks, events, looks);
      flushed <= |Content(c, r[|r| - 1])| && (|r| == |s.chunks| ==> s.flushed <= flushed)
    ensures IsRun(c, max, s, steps) && t == Exec(c, max, s, steps)
    ensures Inv(c, t) && OnlyAppended(c, s, t)
    ensures t.chunks == Appending(c, max, s.chunks, events, looks) && t.flushed == flushed
    ensures
      var written := events[..RecordsWritten(looks, LeadingValid(c, events))];
      var h := Hidden(c, max, s.chunks, written);
      t.log == s.log + written[h..] && t.lost == s.lost + written[..h]
  {
    hide PutAll, Content, Sound, AllRecords, Flat, PublishInv, StandsAt, Ascending, Durable, FrameOf, Payload, Appending,
         LeadingValid, MakeRoom, AllGrown, Quiet, IsRun, Exec, Darken, OnlyAppended;
    var w := RecordsWritten(looks, LeadingValid(c, events));
    var r, final := PutAll(c, max, s.chunks, events[..w]), Appending(c, max, s.chunks, events, looks);
    Stages(c, max, s.chunks, events, looks);
    SoundBefore(c, r, final);
    Sizes(c, s.chunks, r);
    Sizes(c, r, final);
    if r == final {
      t := AppendStep(c, max, s, events[..w], flushed);
      steps := [Append(events[..w], flushed)];
      return;
    }
    var room := MakeRoom(c, max, r, events[w]);
    Sizes(c, room, final);
    SoundBefore(c, room, final);
    RoomShape(c, max, r, events[w]);
    var first := if |room| > |r| then |Content(c, r[|r| - 1])|
                 else Min(flushed, |Content(c, r[|r| - 1])|);
    var s1 := AppendStep(c, max, s, events[..w], first);
    steps := [Append(events[..w], first)];
    if room != r {
      var s2 := RotateStep(c, max, s1);
      RunConcat(c, max, s, steps, [Rotate]);
      AppendedAgain(c, s, s1, s2);
      steps, s1 := steps + [Rotate], s2;
    }
    if final == room {
      t := s1;
    } else {
      var bytes := TornLength(c, looks, events[w]);
      t := TearStep(c, max, s1, events[w], bytes, flushed);
      RunConcat(c, max, s, steps, [Tear(events[w], bytes, flushed)]);
      AppendedAgain(c, s, s1, t);
      steps := steps + [Tear(events[w], bytes, flushed)];
    }
  }

  lemma Sizes(c: Codec, a: seq<Chunk>, b: seq<Chunk>)
    requires 0 < |a| && AllGrown(c, a, b)
    ensures |a| <= |b|
    ensures |a| == |b| ==> |Content(c, a[|a| - 1])| <= |Content(c, b[|b| - 1])|
  {
    if |a| == |b| { LastGrown(c, a, b); }
  }

  lemma RoomShape(c: Codec, max: int, r: seq<Chunk>, e: ShareEvent)
    requires |r| > 0
    ensures
      var room := MakeRoom(c, max, r, e);
      && (room == r || room == r + [Chunk(r[|r| - 1].index + 1, [], [])])
      && (|room| == |r| ==> room == r)
      && (room != r ==> Content(c, room[|room| - 1]) == [])
  {
    hide FrameOf;
  }

  /** An append to the last segment does not depend on the others. */
  lemma {:induction false} PutAllLocal(c: Codec, max: int, front: seq<Chunk>, last: Chunk, es: seq<ShareEvent>)
    ensures PutAll(c, max, front + [last], es) == front + PutAll(c, max, [last], es)
    decreases |es|
  {
    hide Put;
    if es != [] {
      var init := es[..|es| - 1];
      PutAllLocal(c, max, front, last, init);
      PutLocal(c, max, front, PutAll(c, max, [last], init), es[|es| - 1]);
    }
  }

  lemma PutLocal(c: Codec, max: int, front: seq<Chunk>, chunks: seq<Chunk>, e: ShareEvent)
    requires |chunks| > 0
    ensures Put(c, max, front + chunks, e) == front + Put(c, max, chunks, e)
    ensures MakeRoom(c, max, front + chunks, e) == front + MakeRoom(c, max, chunks, e)
  {
    hide MakeRoom, Write;
    RoomLocal(c, max, front, chunks, e);
    WriteLocal(c, front, MakeRoom(c, max, chunks, e), e);
  }

  lemma RoomLocal(c: Codec, max: int, front: seq<Chunk>, chunks: seq<Chunk>, e: ShareEvent)
    requires |chunks| > 0
    ensures MakeRoom(c, max, front + chunks, e) == front + MakeRoom(c, max, chunks, e)
  {
    hide FrameOf, Content;
    var added := Chunk(chunks[|chunks| - 1].index + 1, [], []);
    assert (front + chunks) + [added] == front + (chunks + [added]);
  }

  lemma WriteLocal(c: Codec, front: seq<Chunk>, room: seq<Chunk>, e: ShareEvent)
    requires |room| > 0
    ensures Write(c, front + room, e) == front + Write(c, room, e)
  {
    hide FrameOf;
    assert (front + room)[..|front + room| - 1] == front + room[..|room| - 1];
  }

  lemma DarkenLocal(front: seq<Chunk>, chunks: seq<Chunk>, bytes: seq<byte>)
    requires |chunks| > 0
    ensures Darken(front + chunks, bytes) == front + Darken(chunks, bytes)
  {
    assert (front + chunks)[..|front + chunks| - 1] == front + chunks[..|chunks| - 1];
  }

  lemma AppendingLocal(c: Codec, max: int, front: seq<Chunk>, last: Chunk, events: seq<ShareEvent>, looks: nat)
    ensures Appending(c, max, front + [last], events, looks) == front + Appending(c, max, [last], events, looks)
  {
    hide PutAll, FrameOf, MakeRoom, Darken, LeadingValid, Payload;
    var n := LeadingValid(c, events);
    var w := RecordsWritten(looks, n);
    PutAllLocal(c, max, front, last, events[..w]);
    var r := PutAll(c, max, [last], events[..w]);
    if w < n {
      PutLocal(c, max, front, r, events[w]);
      var room := MakeRoom(c, max, r, events[w]);
      DarkenLocal(front, room, FrameOf(c, events[w])[..TornLength(c, looks, events[w])]);
    }
  }

  lemma {:induction false} HiddenLocal(c: Codec, max: int, front: seq<Chunk>, last: Chunk, es: seq<ShareEvent>)
    ensures Hidden(c, max, front + [last], es) == Hidden(c, max, [last], es)
    decreases |es|
  {
    hide PutAll;
    if es != [] {
      HiddenLocal(c, max, front, last, es[..|es| - 1]);
      PutAllLocal(c, max, front, last, es);
    }
  }

  /** Deleting published segments does not change what an append does, nor what it hides: a
      writer's appends and the publisher's deletions commute. */
  lemma DeletionCommutes(c: Codec, max: int, chunks: seq<Chunk>, d: nat, events: seq<ShareEvent>, looks: nat)
    requires d < |chunks|
    ensures Appending(c, max, chunks, events, looks) == chunks[..d] + Appending(c, max, chunks[d..], events, looks)
    ensures Hidden(c, max, chunks[d..], events) == Hidden(c, max, chunks, events)
  {
    hide Appending, Hidden;
    var front, last := chunks[..|chunks| - 1], chunks[|chunks| - 1];
    assert chunks == front + [last] && chunks[d..] == front[d..] + [last];
    AppendingLocal(c, max, front, last, events, looks);
    AppendingLocal(c, max, front[d..], last, events, looks);
    assert front == chunks[..d] + front[d..];
    HiddenLocal(c, max, front, last, events);
    HiddenLocal(c, max, front[d..], last, events);
  }

  lemma SoundParts(c: Codec, front: seq<Chunk>, last: Chunk, r: seq<Chunk>)
    requires Sound(c, front + [last]) && Sound(c, r)
    ensures Sound(c, front + r)
  {
    hide Quiet, AllStorable;
    forall i | 0 <= i < |front| ensures AllStorable(c, front[i].events) && Quiet(c, front[i].dark) {
      assert (front + [last])[i] == front[i];
    }
  }

  /** What the protocol says an advance does when the process survives it. */
  lemma AdvanceEffect(c: Codec, max: int, s: Sys, n: nat)
    requires Inv(c, s) && s.publisher.Holding? && s.publisher.published && |s.publisher.records| > 0
    requires n >= |s.chunks|
    ensures Enabled(c, max, s, Advance(n))
    ensures
      var t, rs := Next(c, max, s, Advance(n)), s.publisher.records;
      && t.chunks == Drop(s.chunks, rs[|rs| - 1].segmentName, SegmentName(Last(s).index))
      && t.checkpoint == After(rs[|rs| - 1]) && t.publisher == Idle
      && t.stream == s.stream && t.flushed == s.flushed
      && t.log == s.log && t.passed == s.passed + |rs| && |t.chunks| <= |s.chunks|
      && t.passed - t.deleted
         == |AllRecords(c, t.chunks)| - |AllRecords(c, s.chunks)| + s.passed - s.deleted + |rs|
  {
    hide Frames, Flat, AllRecords, Drop, Durable, SegmentName, StandsAt, Ascending;
    var d := AdvanceShape(c, max, s, n);
    AdvanceHistory(s, c, max, n, d);
    DropFront(c, s.chunks, d);
  }

  class ShareEventOutboxPublisher {
    const outbox: FileShareEventOutbox
    const transport: Transport
    const publisherMaxEvents: int
    const publisherMaxApproxBytes: int
    /** The length of an event's JSON text, in characters. */
    const jsonLength: ShareEvent -> nat
    /** How many events the writer will still try to append. */
    var toCome: nat

    /** The protocol run so far and the state it led to. */
    ghost var steps: seq<Step>
    ghost var sys: Sys

    /** The real objects are in the state the run led to. */
    ghost predicate Matches()
      reads this, outbox, outbox.directory, transport
    {
      && outbox.Valid()
      && sys.chunks == outbox.chunks
      && sys.checkpoint == outbox.directory.Saved()
      && sys.passed == sys.deleted + outbox.passed
      && sys.flushed == |outbox.directory.segments[|outbox.chunks| - 1].bytes|
      && sys.stream == transport.stream
    }

    /** The run is one. */
    ghost predicate Running()
      reads this
    {
      && IsRun(outbox.codec, outbox.segmentMaxBytes, INIT, steps)
      && sys == Exec(outbox.codec, outbox.segmentMaxBytes, INIT, steps)
      && Inv(outbox.codec, sys)
    }

    ghost predicate Valid()
      reads this, outbox, outbox.directory, transport
    {
      Matches() && Running()
    }

    /** What is left to do, in looks at a token: a look for each segment and each record to be
        read, one of each for every event to come, and three for each failure. */
    ghost function Work(): int
      reads this, outbox, transport
    {
      |outbox.chunks| + (|sys.log| - sys.passed) + 2 * toCome + 3 * transport.failures
    }

    constructor (outbox: FileShareEventOutbox, transport: Transport, publisherMaxEvents: int,
                 publisherMaxApproxBytes: int, jsonLength: ShareEvent -> nat, toCome: nat,
                 ghost steps: seq<Step>, ghost sys: Sys)
      requires outbox.Valid()
      requires sys.chunks == outbox.chunks && sys.checkpoint == outbox.directory.Saved()
      requires sys.passed == sys.deleted + outbox.passed
      requires sys.flushed == |outbox.directory.segments[|outbox.chunks| - 1].bytes|
      requires sys.stream == transport.stream && sys.publisher == Idle
      requires IsRun(outbox.codec, outbox.segmentMaxBytes, INIT, steps)
      requires sys == Exec(outbox.codec, outbox.segmentMaxBytes, INIT, steps)
      requires Inv(outbox.codec, sys)
      ensures Valid() && this.outbox == outbox && this.transport == transport && this.sys == sys && this.toCome == toCome
    {
      hide Inv, IsRun, Exec, Frames, Flat, AllRecords, StandsAt, Lawful;
      this.outbox, this.transport, this.jsonLength := outbox, transport, jsonLength;
      this.publisherMaxEvents, this.publisherMaxApproxBytes := publisherMaxEvents, publisherMaxApproxBytes;
      this.steps, this.sys, this.toCome := steps, sys, toCome;
      new;
    }

    /** The ghost half of some steps; the real half has been done. */
    ghost method Record(more: seq<Step>)
      requires Lawful(outbox.codec) && Running()
      requires IsRun(outbox.codec, outbox.segmentMaxBytes, sys, more)
      modifies `steps, `sys
      ensures Running()
      ensures sys == Exec(outbox.codec, outbox.segmentMaxBytes, old(sys), more)
    {
      hide Next, Enabled, Inv, IsRun, Exec;
      RunInv(outbox.codec, outbox.segmentMaxBytes, sys, more);
      RunConcat(outbox.codec, outbox.segmentMaxBytes, INIT, steps, more);
      sys := Exec(outbox.codec, outbox.segmentMaxBytes, sys, more);
      steps := steps + more;
    }

    // ---------- The writer, while the publisher waits ----------

    /** The last segment as the files and the buffer have it. */
    method LastChunk() returns (k: Chunk)
      requires outbox.Valid()
      ensures k == outbox.chunks[|outbox.chunks| - 1]
    {
      hide SegmentResult, Frames, SegmentName, Quiet, StandsAt, AllStorable, Records, Ascending, Lawful;
      var s := outbox.directory.segments[|outbox.directory.segments| - 1];
      ghost var last := outbox.chunks[|outbox.chunks| - 1];
      var content := s.bytes + outbox.buffer;
      DarkSegment(outbox.codec, SegmentName(s.index), last.events, last.dark);
      EventsOfRecords(outbox.codec, SegmentName(s.index), 0, last.events);
      var result := ReadSegmentWithResult(outbox.codec, SegmentName(s.index), content, 0);
      k := Chunk(s.index, EventsOf(result.records), content[result.validLength..]);
    }

    /** The writer may append any batch under a token that is cancelled at any moment,
        provided the bytes behind a torn record do not by chance have the right checksum. */
    method WriterAppends()
      requires Valid()
      modifies this, outbox, outbox.directory`segments
      ensures Valid() && OnlyAppended(outbox.codec, old(sys), sys) && sys.publisher == old(sys.publisher)
      ensures Work() <= old(Work())
      ensures AllGrown(outbox.codec, old(outbox.chunks), outbox.chunks)
      ensures Extends(old(outbox.directory.segments), outbox.directory.segments)
    {
      hide Inv, IsRun, Exec, Content, AllRecords, StandsAt, Appending, Sound, AllGrown, Extends, Durable, Ascending,
           SegmentName, Lawful;
      var events: seq<ShareEvent> := *;
      var flushToDisk: bool := *;
      var looks: nat := *;
      Unchanged();
      var last := LastChunk();
      if Sound(outbox.codec, Appending(outbox.codec, outbox.segmentMaxBytes, [last], events, looks))
         && outbox.currentSegmentIndex + |events| < LONG_LIMIT && |events| <= toCome {
        ghost var front := outbox.chunks[..|outbox.chunks| - 1];
        assert outbox.chunks == front + [last];
        AppendingLocal(outbox.codec, outbox.segmentMaxBytes, front, last, events, looks);
        SoundParts(outbox.codec, front, last, Appending(outbox.codec, outbox.segmentMaxBytes, [last], events, looks));
        ghost var files := outbox.directory.segments;
        var token := new CancellationToken(looks);
        var outcome := outbox.AppendAsync(events, flushToDisk, token);
        NoteAppend(events, looks, files);
        toCome := toCome - |events|;
      }
    }

    lemma Unchanged()
      requires Valid()
      ensures OnlyAppended(outbox.codec, sys, sys) && AllGrown(outbox.codec, outbox.chunks, outbox.chunks)
      ensures Extends(outbox.directory.segments, outbox.directory.segments)
    {
      hide AllRecords, Durable, Running, Holds, Sound, StandsAt, Lawful;
      NotGrown(outbox.codec, outbox.chunks);
      SameFiles(outbox.directory.segments);
      LastIsCurrent();
    }

    /** The protocol's half of an append. */
    ghost method NoteAppend(events: seq<ShareEvent>, looks: nat, files: seq<Segment>)
      requires Running() && outbox.Valid() && Last(sys).index + |events| < LONG_LIMIT
      requires outbox.chunks == Appending(outbox.codec, outbox.segmentMaxBytes, sys.chunks, events, looks)
      requires |files| == |sys.chunks| && sys.flushed == |files[|files| - 1].bytes|
      requires Extends(files, outbox.directory.segments)
      requires sys.checkpoint == outbox.directory.Saved() && sys.passed == sys.deleted + outbox.passed
      requires sys.stream == transport.stream
      modifies `steps, `sys
      ensures Valid() && OnlyAppended(outbox.codec, old(sys), sys)
      ensures sys.publisher == old(sys.publisher) && sys.chunks == outbox.chunks
      ensures |sys.chunks| <= |old(sys.chunks)| + |events| && |sys.log| <= |old(sys.log)| + |events|
    {
      hide Inv, IsRun, Exec, AllRecords, StandsAt, Appending, Sound, Durable, Ascending, SegmentName, Lawful, Content,
           Hidden, LeadingValid, RecordsWritten;
      var k := |outbox.chunks| - 1;
      var bytes := outbox.directory.segments[k].bytes;
      assert |bytes| <= |bytes + outbox.buffer|;
      AscendingNow();
      AppendingIndex(outbox.codec, outbox.segmentMaxBytes, sys.chunks, events, looks);
      var more, t := AppendRun(outbox.codec, outbox.segmentMaxBytes, sys, events, looks, |bytes|);
      Record(more);
    }

    lemma AscendingNow()
      requires Inv(outbox.codec, sys)
      ensures Ascending(sys.chunks)
    {
      hide PublishInv, StandsAt, Sound;
    }

    /** Any number of appends. */
    method OtherTasks()
      requires Valid()
      modifies this, outbox, outbox.directory`segments
      ensures Valid() && OnlyAppended(outbox.codec, old(sys), sys) && sys.publisher == old(sys.publisher)
      ensures Work() <= old(Work())
      ensures AllGrown(outbox.codec, old(outbox.chunks), outbox.chunks)
      ensures Extends(old(outbox.directory.segments), outbox.directory.segments)
    {
      hide OnlyAppended, AllGrown, Extends, Matches, Running, Work;
      Unchanged();
      var appends: nat :| appends >= 0;
      for i := 0 to appends
        invariant Valid() && OnlyAppended(outbox.codec, old(sys), sys) && sys.publisher == old(sys.publisher)
        invariant Work() <= old(Work())
        invariant AllGrown(outbox.codec, old(outbox.chunks), outbox.chunks)
        invariant Extends(old(outbox.directory.segments), outbox.directory.segments)
      {
        ghost var sys', chunks', files' := sys, outbox.chunks, outbox.directory.segments;
        WriterAppends();
        AppendedAgain(outbox.codec, old(sys), sys', sys);
        GrownAgain(outbox.codec, old(outbox.chunks), chunks', outbox.chunks);
        ExtendsAgain(old(outbox.directory.segments), files', outbox.directory.segments);
      }
    }

    // ---------- The publisher ----------

    lemma InHandNotEmpty()
      requires Inv(outbox.codec, sys) && sys.publisher.Holding?
      ensures |sys.publisher.records| > 0
      ensures
        var p := sys.passed - sys.deleted + |sys.publisher.records| - 1;
        && 0 <= p < |AllRecords(outbox.codec, sys.chunks)|
        && AllRecords(outbox.codec, sys.chunks)[p] == sys.publisher.records[|sys.publisher.records| - 1]
    {
      hide Frames, Flat, AllRecords, StandsAt, Durable;
    }

    /** After a flush the protocol state learns how much is in the file: everything. */
    ghost method NoteFlush(files: seq<Segment>)
      requires Running() && outbox.Valid() && outbox.buffer == []
      requires sys.chunks == outbox.chunks
      requires |files| == |sys.chunks| && sys.flushed == |files[|files| - 1].bytes|
      requires Extends(files, outbox.directory.segments)
      requires sys.checkpoint == outbox.directory.Saved() && sys.passed == sys.deleted + outbox.passed
      requires sys.stream == transport.stream
      modifies `steps, `sys
      ensures Valid() && OnlyAppended(outbox.codec, old(sys), sys) && sys.chunks == old(sys.chunks)
      ensures sys.publisher == old(sys.publisher) && |sys.log| == |old(sys.log)|
      ensures Safe(outbox.codec, sys) == |AllRecords(outbox.codec, sys.chunks)|
    {
      hide Running, Matches, AllRecords, Appending, OnlyAppended, Durable, Holds, Sound, StandsAt, Lawful, Extends;
      Numbered();
      AppendingNothing(outbox.codec, outbox.segmentMaxBytes, sys.chunks, []);
      NoteAppend([], 0, files);
      Appended(old(sys), sys);
      AllFlushed();
    }

    lemma Numbered()
      requires Running()
      ensures |sys.chunks| > 0 && Last(sys).index < LONG_LIMIT
    {
      hide IsRun, Exec, AllRecords, StandsAt, PublishInv, Sound, Content;
    }

    lemma AllFlushed()
      requires Matches() && outbox.buffer == []
      ensures |sys.chunks| > 0 && Safe(outbox.codec, sys) == |AllRecords(outbox.codec, sys.chunks)|
    {
      hide AllRecords, StandsAt, Sound, Lawful, Content, Durable, SegmentName;
      var k := |outbox.chunks| - 1;
      var bytes := outbox.directory.segments[k].bytes;
      assert bytes + [] == bytes;
      InFile(outbox.chunks[k]);
      AllDurable(outbox.codec, sys.chunks, |bytes|);
    }

    lemma InFile(k: Chunk)
      ensures |Frames(outbox.codec, k.events)| <= |Content(outbox.codec, k)|
    {
      hide Frames;
    }

    /** All of `all` is out of the buffer, and stands at the checkpoint. */
    ghost predicate AtCheckpoint(all: seq<OutboxRecord>)
      reads this
    {
      var at := sys.passed - sys.deleted;
      && Running() && 0 <= at && at + |all| <= Safe(outbox.codec, sys)
      && at + |all| <= |AllRecords(outbox.codec, sys.chunks)|
      && all == AllRecords(outbox.codec, sys.chunks)[at..at + |all|]
    }

    lemma StillAtCheckpoint(s: Sys, all: seq<OutboxRecord>)
      requires Running() && OnlyAppended(outbox.codec, s, sys)
      requires
        var at := s.passed - s.deleted;
        && 0 <= at && at + |all| <= Safe(outbox.codec, s) && at + |all| <= |AllRecords(outbox.codec, s.chunks)|
        && all == AllRecords(outbox.codec, s.chunks)[at..at + |all|]
      ensures AtCheckpoint(all)
    {
      hide AllRecords, Inv, IsRun, Exec, Durable;
      var at := s.passed - s.deleted;
      PrefixSlice(AllRecords(outbox.codec, s.chunks), AllRecords(outbox.codec, sys.chunks), at, at + |all|);
    }

    lemma SnapshotAtCheckpoint()
      requires Valid() && Safe(outbox.codec, sys) == |AllRecords(outbox.codec, sys.chunks)|
      ensures AtCheckpoint(Snapshot(outbox.codec, outbox.chunks, outbox.directory.Saved()))
    {
      hide AllRecords, IsRun, Exec, Durable, Snapshot, Frames, Content, StandsAt;
      assert LogInv(outbox.codec, sys);
      SnapshotIsSuffix(outbox.codec, sys.chunks, sys.checkpoint, sys.passed - sys.deleted);
    }

    /** What stands behind the checkpoint is what was logged and not yet passed. */
    lemma SnapshotEvents()
      requires Valid()
      ensures sys.passed <= |sys.log|
      ensures EventsOf(Snapshot(outbox.codec, outbox.chunks, outbox.directory.Saved())) == sys.log[sys.passed..]
    {
      hide AllRecords, IsRun, Exec, Durable, Snapshot, Frames, Content, StandsAt, Flat, PublishInv, Sound, Ascending, Holds,
           Lawful;
      assert LogInv(outbox.codec, sys);
      var all, at := AllRecords(outbox.codec, sys.chunks), sys.passed - sys.deleted;
      SnapshotIsSuffix(outbox.codec, sys.chunks, sys.checkpoint, at);
      RecordCount(outbox.codec, sys);
      assert EventsOf(all[at..]) == EventsOf(all)[at..];
      assert sys.log[sys.deleted..][at..] == sys.log[sys.passed..];
    }

    /** Some of what stands at the checkpoint can be taken. */
    lemma ReadEnabled(all: seq<OutboxRecord>, n: nat)
      requires Running() && sys.publisher == Idle && AtCheckpoint(all) && 0 < n <= |all|
      ensures IsRun(outbox.codec, outbox.segmentMaxBytes, sys, [Read(n)])
      ensures Exec(outbox.codec, outbox.segmentMaxBytes, sys, [Read(n)]) == sys.(publisher := Holding(all[..n], false))
    {
      hide AllRecords, IsRun, Exec, Durable, Snapshot, Frames, Content, StandsAt;
      assert LogInv(outbox.codec, sys);
      var at := sys.passed - sys.deleted;
      SnapshotIsSuffix(outbox.codec, sys.chunks, sys.checkpoint, at);
      TakeOfPart(AllRecords(outbox.codec, sys.chunks), at, |all|, n);
      OneStep(outbox.codec, outbox.segmentMaxBytes, sys, Read(n));
    }

    lemma TakeOfPart<T>(s: seq<T>, at: nat, m: nat, n: nat)
      requires n <= m && at + m <= |s|
      ensures s[at..][..n] == s[at..at + m][..n]
    {
    }

    /** Whether a batch has reached a limit. */
    predicate Full(records: seq<OutboxRecord>) {
      |records| >= publisherMaxEvents || Size(jsonLength, EventsOf(records)) >= publisherMaxApproxBytes
    }

    /** No limit was reached before the last record. */
    predicate Filled(records: seq<OutboxRecord>) {
      forall i | 0 < i < |records| :: !Full(records[..i])
    }

    /** The writer at work while a snapshot is read. */
    method OtherTasksWhileReading(reader: CheckpointRecords, ghost all: seq<OutboxRecord>)
      requires Valid() && sys.publisher == Idle && AtCheckpoint(all)
      requires reader.Valid() && reader.outbox == outbox
      modifies this, outbox, outbox.directory`segments
      ensures Valid() && sys.publisher == Idle && AtCheckpoint(all)
      ensures Waited(old(sys), sys) && Work() <= old(Work())
      ensures reader.Valid() && reader.Rest() == old(reader.Rest())
    {
      hide Work, Matches, Running, AllGrown, Extends, AtCheckpoint, Durable, AllRecords, Holds, Sound, StandsAt, Lawful;
      ghost var sys', chunks', files' := sys, outbox.chunks, outbox.directory.segments;
      AtCheckpointIs(all);
      OtherTasks();
      StillAtCheckpoint(sys', all);
      ValidOutbox();
      reader.StillCovered(chunks', files');
    }

    lemma AtCheckpointIs(all: seq<OutboxRecord>)
      requires Running() && AtCheckpoint(all)
      ensures |sys.chunks| > 0
      ensures
        var at := sys.passed - sys.deleted;
        && 0 <= at && at + |all| <= Safe(outbox.codec, sys) && at + |all| <= |AllRecords(outbox.codec, sys.chunks)|
        && all == AllRecords(outbox.codec, sys.chunks)[at..at + |all|]
    {
      hide AllRecords, IsRun, Exec, Durable;
    }

    lemma ValidOutbox()
      requires Matches()
      ensures outbox.Valid()
    {
    }

    method NextRecord(reader: CheckpointRecords, ghost all: seq<OutboxRecord>, ct: CancellationToken)
      returns (cancelled: bool, record: Option<OutboxRecord>)
      requires Valid() && sys.publisher == Idle && AtCheckpoint(all)
      requires reader.Valid() && reader.Placed() && reader.outbox == outbox
      modifies this, outbox, outbox.directory`segments, reader, ct
      ensures Valid() && sys.publisher == Idle && AtCheckpoint(all)
      ensures Waited(old(sys), sys) && Work() <= old(Work())
      ensures reader.Valid() && reader.Placed()
      ensures cancelled <==> old(reader.Rest()) != [] && old(ct.looks) == 0
      ensures ct.looks == if old(reader.Rest()) == [] || cancelled then old(ct.looks) else old(ct.looks) - 1
      ensures !cancelled ==> old(reader.Rest()) == (match record case None => [] case Some(r) => [r] + reader.Rest())
    {
      hide Work, Waited, Running, Matches, AtCheckpoint, CheckpointRecords.Covered, CheckpointRecords.Rest;
      OtherTasksWhileReading(reader, all);
      cancelled, record := reader.MoveNextAsync(ct);
    }

    ghost method NoteRead(all: seq<OutboxRecord>, n: nat)
      requires Valid() && sys.publisher == Idle && AtCheckpoint(all) && 0 < n <= |all|
      modifies `steps, `sys
      ensures Valid() && sys.publisher == Holding(all[..n], false)
      ensures sys.(publisher := Idle) == old(sys)
    {
      hide Running, AllRecords, AtCheckpoint, Exec, Safe, Holds, Sound, StandsAt, Lawful;
      ReadEnabled(all, n);
      Record([Read(n)]);
    }

    /** The records for one batch, read while the writer goes on appending: from what stood
        behind the checkpoint when the snapshot was taken, as many as the limits on events
        and on text allow, at least one if there is any. */
    method ReadBatch(ct: CancellationToken)
      returns (cancelled: bool, records: seq<OutboxRecord>, ghost all: seq<OutboxRecord>)
      requires Valid() && sys.publisher == Idle
      modifies this, outbox, outbox.directory`segments, ct
      ensures Valid()
      ensures Waited(old(sys), sys) && Work() <= old(Work())
      ensures cancelled ==> ct.looks == 0
      ensures ct.looks <= old(ct.looks) <= ct.looks + 2 + |old(outbox.chunks)| + |all|
      ensures cancelled ==> sys.publisher == Idle
      ensures all == Snapshot(outbox.codec, old(outbox.chunks), outbox.directory.Saved())
      ensures EventsOf(all) == old(sys.log)[old(sys.passed)..]
      ensures !cancelled ==> records <= all && (records == all || Full(records)) && (all != [] ==> records != [])
      ensures !cancelled ==> Filled(records)
      ensures !cancelled ==> sys.publisher == if records == [] then Idle else Holding(records, false)
    {
      hide *;
      records := [];
      var reader;
      cancelled, reader, all := StartReading(ct);
      if cancelled { return; }
      var bytes := 0;
      NothingFilled();
      while true
        invariant Valid() && sys.publisher == Idle && AtCheckpoint(all)
        invariant Waited(old(sys), sys) && Work() <= old(Work())
        invariant old(ct.looks) == ct.looks + 2 + |old(outbox.chunks)| + |records|
        invariant reader.Valid() && reader.Placed() && reader.outbox == outbox && fresh(reader) && records + reader.Rest() == all
        invariant bytes == Size(jsonLength, EventsOf(records)) && (records == [] || !Full(records))
        invariant Filled(records)
        decreases |all| - |records|
      {
        var record;
        ghost var before := sys;
        cancelled, record := NextRecord(reader, all, ct);
        WaitedAgain(old(sys), before, sys);
        if cancelled { return; }
        if record == None { break; }
        Moved(records, record.value, reader.Rest());
        OneMore(records, record.value);
        records := records + [record.value];
        bytes := bytes + Max(128, jsonLength(record.value.event));
        if |records| >= publisherMaxEvents || bytes >= publisherMaxApproxBytes {
          break;
        }
      }
      if records != [] {
        assert all[..|records|] == records;
        ghost var before := sys;
        WorkIs();
        NoteRead(all, |records|);
        WorkIs();
        WaitedTaken(old(sys), before, sys);
      }
    }

    lemma WaitedAgain(a: Sys, b: Sys, d: Sys)
      requires Waited(a, b) && Waited(b, d)
      ensures Waited(a, d)
    {
    }

    lemma WaitedTaken(a: Sys, b: Sys, d: Sys)
      requires Waited(a, b) && d.(publisher := Idle) == b
      ensures Waited(a, d) && b.log == d.log && b.passed == d.passed
    {
    }

    lemma Moved<T>(a: seq<T>, x: T, rest: seq<T>)
      ensures a + ([x] + rest) == (a + [x]) + rest
    {
    }

    lemma NothingFilled()
      ensures EventsOf([]) == [] && Size(jsonLength, EventsOf([])) == 0 && Filled([])
    {
    }

    lemma OneMore(rs: seq<OutboxRecord>, r: OutboxRecord)
      requires Filled(rs) && (rs == [] || !Full(rs))
      ensures Size(jsonLength, EventsOf(rs + [r])) == Size(jsonLength, EventsOf(rs)) + Max(128, jsonLength(r.event))
      ensures Full(rs + [r]) <==>
                (|rs| + 1 >= publisherMaxEvents
                 || Size(jsonLength, EventsOf(rs)) + Max(128, jsonLength(r.event)) >= publisherMaxApproxBytes)
      ensures Filled(rs + [r])
    {
      hide Size;
      assert EventsOf(rs + [r]) == EventsOf(rs) + [r.event];
      SizeSnoc(jsonLength, EventsOf(rs), r.event);
      MoreFilled(rs, r);
    }

    lemma MoreFilled(rs: seq<OutboxRecord>, r: OutboxRecord)
      requires Filled(rs) && (rs == [] || !Full(rs))
      ensures Filled(rs + [r])
    {
      hide Full;
      forall i | 0 < i < |rs + [r]| ensures !Full((rs + [r])[..i]) {
        assert (rs + [r])[..i] == rs[..i];
        if i == |rs| { assert rs[..i] == rs; }
      }
    }

    /** The snapshot, under the gate. */
    method StartReading(ct: CancellationToken)
      returns (cancelled: bool, reader: CheckpointRecords?, ghost all: seq<OutboxRecord>)
      requires Valid() && sys.publisher == Idle
      modifies this, outbox`buffer, outbox.directory`segments, ct
      ensures Valid() && sys.publisher == Idle
      ensures Waited(old(sys), sys) && Work() <= old(Work())
      ensures cancelled <==> old(ct.looks) < 2 + |old(outbox.chunks)|
      ensures ct.looks == if cancelled then 0 else old(ct.looks) - 2 - |old(outbox.chunks)|
      ensures all == Snapshot(outbox.codec, old(outbox.chunks), outbox.directory.Saved())
      ensures outbox.directory.Saved() == old(outbox.directory.Saved())
      ensures EventsOf(all) == old(sys.log)[old(sys.passed)..]
      ensures !cancelled ==> reader != null && fresh(reader) && reader.outbox == outbox
      ensures !cancelled ==> reader.Valid() && reader.Placed() && reader.Rest() == all && AtCheckpoint(all)
    {
      hide Running, AllRecords, Snapshot, AllGrown, Extends, AtCheckpoint, Durable, Holds, Sound, StandsAt, Lawful,
           SnapshotOf;
      ghost var files := outbox.directory.segments;
      var snapshot;
      ghost var marks;
      SizesMatch();
      SnapshotEvents();
      cancelled, snapshot, marks := outbox.TakeSnapshot(ct);
      if outbox.buffer == [] {
        NoteFlush(files);
      }
      all := Snapshot(outbox.codec, outbox.chunks, outbox.directory.Saved());
      if cancelled { return cancelled, null, all; }
      SnapshotAtCheckpoint();
      reader := new CheckpointRecords(outbox, snapshot, marks);
    }

    lemma SizesMatch()
      requires outbox.Consistent()
      ensures |outbox.directory.segments| == |outbox.chunks| > 0
    {
    }

    /** The batch in hand has reached the stream once more. */
    ghost method NotePublish(before: seq<ShareEvent>)
      requires Running() && outbox.Valid() && sys.publisher.Holding?
      requires sys.stream == before && transport.stream == before + EventsOf(sys.publisher.records)
      requires sys.chunks == outbox.chunks && sys.checkpoint == outbox.directory.Saved()
      requires sys.passed == sys.deleted + outbox.passed
      requires sys.flushed == |outbox.directory.segments[|outbox.chunks| - 1].bytes|
      modifies `steps, `sys
      ensures Valid() && sys.chunks == old(sys.chunks) && sys.log == old(sys.log) && sys.passed == old(sys.passed)
      ensures sys.publisher == Holding(old(sys.publisher.records), true) && sys.checkpoint == old(sys.checkpoint)
    {
      hide Inv, IsRun, Exec, Frames, Flat, AllRecords, PutAll, Snapshot, StandsAt, Lawful, Holds;
      assert Lawful(outbox.codec);
      InvIsLogInv();
      OneStep(outbox.codec, outbox.segmentMaxBytes, sys, Publish);
      Record([Publish]);
    }

    lemma InvIsLogInv()
      requires Inv(outbox.codec, sys)
      ensures LogInv(outbox.codec, sys)
    {
    }

    /** Publishing until the broker confirms, the writer appending all the while. It returns
        without a confirmation only when the token is cancelled, and cancellation is
        permanent. The batch is on the stream once for every attempt that reached it, the
        confirmed one last. */
    method PublishWithRetryAsync(batch: seq<ShareEvent>, ct: CancellationToken) returns (threw: bool, ghost times: nat)
      requires Valid() && sys.publisher.Holding? && batch == EventsOf(sys.publisher.records)
      modifies this, outbox, outbox.directory`segments, transport, ct
      ensures Valid() && sys.publisher.Holding? && sys.publisher.records == old(sys.publisher.records)
      ensures old(sys.log) <= sys.log && sys.passed == old(sys.passed) && sys.checkpoint == old(sys.checkpoint)
      ensures Work() <= old(Work())
      ensures threw ==> ct.looks == 0
      ensures !threw ==> (sys.publisher.published && times > 0) || ct.looks == 0
      ensures transport.stream == old(transport.stream) + Times(batch, times)
      ensures times + transport.failures <= old(transport.failures) + 1
      ensures ct.looks <= old(ct.looks) <= ct.looks + 2 + 3 * (old(transport.failures) - transport.failures)
    {
      hide *;
      ghost var records := sys.publisher.records;
      times := 0;
      NoneYet(old(transport.stream), batch);
      while true
        invariant Valid() && sys.publisher.Holding? && sys.publisher.records == records
        invariant old(sys.log) <= sys.log && sys.passed == old(sys.passed) && sys.checkpoint == old(sys.checkpoint)
        invariant Work() <= old(Work()) && transport.failures <= old(transport.failures)
        invariant transport.stream == old(transport.stream) + Times(batch, times)
        invariant times + transport.failures <= old(transport.failures)
        invariant ct.looks <= old(ct.looks) <= ct.looks + 3 * (old(transport.failures) - transport.failures)
        decreases ct.looks
      {
        var cancelled := ct.IsCancellationRequested();
        if cancelled {
          break;
        }
        ghost var waiting, before := sys, transport.stream;
        OtherTasks();
        Appended(waiting, sys);
        var result := Attempt(batch, ct);
        Regrouped(old(transport.stream), batch, times);
        if transport.stream != before {
          times := times + 1;
        }
        ghost var attempted := sys;
        OtherTasks();
        Appended(attempted, sys);
        if result == Published {
          return false, times;
        }
        // the delay before the next attempt
        cancelled := ct.IsCancellationRequested();
        if cancelled {
          return true, times;
        }
      }
      threw := false;
    }

    /** One attempt to publish the batch in hand. */
    method Attempt(batch: seq<ShareEvent>, ct: CancellationToken) returns (result: PublishResult)
      requires Valid() && sys.publisher.Holding? && batch == EventsOf(sys.publisher.records)
      modifies `steps, `sys, transport, ct
      ensures Valid() && sys.publisher.Holding? && sys.publisher.records == old(sys.publisher.records)
      ensures sys.log == old(sys.log) && sys.passed == old(sys.passed) && sys.checkpoint == old(sys.checkpoint)
      ensures batch != [] && Work() == old(Work()) + 3 * (transport.failures - old(transport.failures))
      ensures transport.stream == old(transport.stream) || transport.stream == old(transport.stream) + batch
      ensures result == Published ==>
        transport.stream == old(transport.stream) + batch && transport.failures == old(transport.failures)
      ensures transport.stream != old(transport.stream) ==> sys.publisher.published
      ensures result != Published ==> old(ct.looks) == 0 || transport.failures + 1 == old(transport.failures)
      ensures old(ct.looks) == 0 ==>
        result != Published && transport.stream == old(transport.stream) && transport.failures == old(transport.failures)
      ensures ct.looks == if old(ct.looks) == 0 then 0 else old(ct.looks) - 1
    {
      hide Inv, IsRun, Exec, AllRecords, Safe, StandsAt, Holds, Sound, Lawful;
      ghost var before := transport.stream;
      result := transport.PublishAsync(batch, ct);
      InHandNotEmpty();
      assert |before + batch| > |before|;
      if transport.stream != before {
        NotePublish(before);
      }
    }

    lemma NoneYet(stream: seq<ShareEvent>, batch: seq<ShareEvent>)
      ensures stream + Times(batch, 0) == stream
    {
    }

    lemma Regrouped(stream: seq<ShareEvent>, batch: seq<ShareEvent>, times: nat)
      ensures stream + Times(batch, times + 1) == (stream + Times(batch, times)) + batch
    {
    }

    /** The checkpoint moves behind the batch and the segments before it go. Called with
        a batch that was not published, it does nothing: the token that ended the
        retries is looked at again before the checkpoint is saved. */
    method AdvanceCheckpoint(records: seq<OutboxRecord>, ct: CancellationToken) returns (cancelled: bool)
      requires Valid() && sys.publisher.Holding? && sys.publisher.records == records
      requires sys.publisher.published || ct.looks == 0
      modifies this, outbox, outbox.directory, ct
      ensures Valid()
      ensures cancelled <==> old(ct.looks) == 0
      ensures ct.looks == if cancelled then 0 else old(ct.looks) - 1
      ensures Work() <= old(Work()) && (cancelled ==> sys == old(sys))
      ensures !cancelled ==> sys.publisher == Idle && outbox.directory.Saved() == After(records[|records| - 1])
      ensures !cancelled ==> sys.log == old(sys.log) && sys.passed == old(sys.passed) + |records|
    {
      hide Inv, IsRun, Exec, AllRecords, StandsAt, Drop, Next, Enabled, Sound, Holds, Lawful, SegmentName, Content, Flat, Durable,
           LogInv;
      assert Lawful(outbox.codec);
      InvIsLogInv();
      InHandNotEmpty();
      ghost var n := |outbox.chunks|;
      LastIsCurrent();
      cancelled := outbox.AdvanceCheckpointAsync(records[|records| - 1], ct, outbox.passed + |records| - 1);
      if !cancelled {
        LastIsCurrent();
        AdvanceEffect(outbox.codec, outbox.segmentMaxBytes, sys, n);
        OneStep(outbox.codec, outbox.segmentMaxBytes, sys, Advance(n));
        Record([Advance(n)]);
      }
    }

    /** What has left the buffer is what the protocol says has. */
    lemma InFiles()
      requires Valid()
      ensures Stores(outbox.codec, outbox.directory.segments, sys.chunks, sys.flushed)
    {
      hide Running, Content, SegmentName, Sound, StandsAt, Lawful;
      var last := outbox.directory.segments[|outbox.chunks| - 1].bytes;
      assert (last + outbox.buffer)[..|last|] == last;
    }

    lemma LastIsCurrent()
      requires outbox.Consistent()
      ensures |outbox.chunks| == |outbox.directory.segments| > 0
      ensures outbox.currentSegmentName == SegmentName(outbox.chunks[|outbox.chunks| - 1].index)
    {
      hide SegmentName;
    }

    /** One round of the loop. If its token lives: when nothing stands behind the checkpoint,
        nothing changes; otherwise a batch, the longest beginning of that within the limits, is
        on the stream, last and at most once more often than the broker failed, and the
        checkpoint is behind it. It ends the loop only on a cancelled token, which it looks at a
        bounded number of times. */
    method Round(ct: CancellationToken)
      returns (going: bool, ghost records: seq<OutboxRecord>, ghost all: seq<OutboxRecord>, ghost times: nat)
      requires Valid() && sys.publisher == Idle
      modifies this, outbox, outbox.directory, transport, ct
      ensures Valid()
      ensures !going ==> ct.looks == 0
      ensures ct.looks <= old(ct.looks) <= ct.looks + 5 + old(Work())
      ensures Work() <= old(Work())
      ensures old(sys.log) <= sys.log && old(sys.passed) <= sys.passed
      ensures going ==> sys.publisher == Idle && sys.passed == old(sys.passed) + |records|
      ensures going ==> transport.stream == old(transport.stream) + Times(EventsOf(records), times)
      ensures going ==>
        old(sys.log)[old(sys.passed)..] <= EventsOf(all) <= sys.log[old(sys.passed)..]
      ensures going ==> records <= all && Filled(records) && (records == all || Full(records))
      ensures going && all != [] ==>
        && records != [] && outbox.directory.Saved() == After(records[|records| - 1])
        && 0 < times <= old(transport.failures) - transport.failures + 1
      ensures going && all == [] ==> outbox.directory.Saved() == old(outbox.directory.Saved())
    {
      hide *;
      WorkIs();
      OtherTasks();
      ghost var start := sys;
      Appended(old(sys), start);
      WorkIs();
      records, all, times := [], [], 0;
      var cancelled, batch;
      cancelled, batch, all := ReadBatch(ct);
      Waits(start, sys);
      SnapshotWithin(old(sys.log), start.log, sys.log, start.passed, all);
      records := batch;
      if cancelled { return false, records, all, times; }
      if batch == [] {
        cancelled := ct.IsCancellationRequested();  // the idle delay
        return !cancelled, records, all, times;
      }
      WorkIs();
      var threw;
      threw, times := PublishWithRetryAsync(EventsOf(batch), ct);
      if threw { return false, records, all, times; }
      ghost var published := sys;
      OtherTasks();
      Appended(published, sys);
      cancelled := AdvanceCheckpoint(batch, ct);
      going := !cancelled;
    }

    lemma Appended(s: Sys, t: Sys)
      requires OnlyAppended(outbox.codec, s, t)
      ensures s.log <= t.log && s.passed == t.passed && s.stream == t.stream && s.checkpoint == t.checkpoint
    {
      hide AllRecords, Durable;
    }

    lemma SnapshotWithin(before: seq<ShareEvent>, at: seq<ShareEvent>, after: seq<ShareEvent>, passed: nat,
                         all: seq<OutboxRecord>)
      requires before <= at <= after && passed <= |before| && EventsOf(all) == at[passed..]
      ensures before[passed..] <= EventsOf(all) <= after[passed..] && |all| == |at| - passed
      ensures forall stream: seq<ShareEvent> :: stream + Times(EventsOf([]), 0) == stream
    {
    }

    lemma Waits(s: Sys, t: Sys)
      requires Waited(s, t)
      ensures s.log <= t.log && s.passed == t.passed && s.stream == t.stream && s.checkpoint == t.checkpoint
    {
    }

    lemma WorkIs()
      requires Valid()
      ensures 0 <= sys.passed <= |sys.log|
      ensures Work() == |outbox.chunks| + (|sys.log| - sys.passed) + 2 * toCome + 3 * transport.failures
      ensures sys.stream == transport.stream && sys.checkpoint == outbox.directory.Saved()
    {
      hide AllRecords, IsRun, Exec, PublishInv, StandsAt, Sound, Ascending, Flat, Content, Holds, Lawful;
    }

    /** Looks for so many rounds. */
    ghost function Looks(rounds: int, cost: int): int {
      rounds * cost
    }

    /** The loop's account: one more round. */
    lemma Rounds(goal: int, passed: int, passed': int, cost: int, looks: int, looks': int)
      requires passed' > passed || passed >= goal
      requires passed <= passed' && 0 < cost && looks <= looks' + cost && looks >= Looks(goal - passed, cost) && 0 <= looks'
      ensures looks' >= Looks(goal - passed', cost)
    {
      if passed' >= goal {
        Product(passed' - goal, cost);
        assert (goal - passed') * cost == -((passed' - goal) * cost);
      } else {
        Product(passed' - passed - 1, cost);
        assert (goal - passed) * cost == (goal - passed') * cost + (passed' - passed - 1) * cost + cost;
      }
    }

    lemma Product(a: nat, b: nat)
      ensures a * b >= 0
    {
    }

    /** The publisher's loop, with the writer at work at every await: whenever and
        however it ends, stream, log and checkpoint are as the protocol promises. It ends only on
        a cancelled token; and everything logged at its start is on the stream and behind the
        checkpoint if the token lives long enough, by a number known at the start. */
    method ExecuteAsync(ct: CancellationToken)
      requires Valid() && sys.publisher == Idle
      modifies this, outbox, outbox.directory, transport, ct
      ensures Valid()
      ensures AtLeastOnceInOrder(outbox.codec, sys)
      ensures ct.looks == 0
      ensures old(sys.log) <= sys.log && old(sys.passed) <= sys.passed
      ensures old(ct.looks) >= Looks(|old(sys.log)| - old(sys.passed), 7 + old(Work())) ==>
        sys.passed >= |old(sys.log)| && forall e | e in old(sys.log) :: e in transport.stream
    {
      hide *;
      WorkIs();
      ghost var goal, cost := |sys.log|, 7 + Work();
      ghost var enough := ct.looks >= Looks(goal - sys.passed, cost);
      while true
        invariant Valid() && sys.publisher == Idle
        invariant old(sys.log) <= sys.log && old(sys.passed) <= sys.passed
        invariant 7 <= 7 + Work() <= cost
        invariant enough ==> ct.looks >= Looks(goal - sys.passed, cost)
        decreases ct.looks
      {
        ghost var looks, log, passed := ct.looks, sys.log, sys.passed;
        var cancelled := ct.IsCancellationRequested();
        if cancelled {
          if enough { LastRound(goal, passed, cost, looks); }
          break;
        }
        var going;
        ghost var records, all, times;
        WorkIs();
        going, records, all, times := Round(ct);
        WorkIs();
        if !going {
          if enough { LastRound(goal, passed, cost, looks); }
          break;
        }
        if enough {
          NothingBehind(old(sys.log), log, passed, all);
          Rounds(goal, passed, sys.passed, cost, looks, ct.looks);
        }
      }
      AllDelivered(old(sys.log));
    }

    lemma LooksGrow(rounds: nat, cost: nat)
      requires rounds > 0
      ensures Looks(rounds, cost) >= cost
    {
      Product(rounds - 1, cost);
      assert rounds * cost == (rounds - 1) * cost + cost;
    }

    lemma LastRound(goal: int, passed: int, cost: int, looks: int)
      requires 0 <= looks < cost && looks >= Looks(goal - passed, cost)
      ensures passed >= goal
    {
      hide Looks;
      if passed < goal {
        LooksGrow(goal - passed, cost);
      }
    }

    lemma NothingBehind(goal: seq<ShareEvent>, log: seq<ShareEvent>, passed: int, all: seq<OutboxRecord>)
      requires goal <= log && 0 <= passed <= |log| && log[passed..] <= EventsOf(all)
      ensures all == [] ==> passed >= |goal|
    {
    }

    lemma AllDelivered(log: seq<ShareEvent>)
      requires Valid() && log <= sys.log
      ensures AtLeastOnceInOrder(outbox.codec, sys)
      ensures sys.passed >= |log| ==> forall e | e in log :: e in transport.stream
    {
      hide IsRun, Exec, Inv, Snapshot, Distinct, Holds, Sound, StandsAt, Lawful;
      InvDelivers(outbox.codec, sys);
      forall e | e in log && sys.passed >= |log| ensures e in transport.stream {
        assert e in sys.log[..sys.delivered];
        assert e in Distinct(sys.log[..sys.delivered]);
      }
    }
  }

  /** The first start, on an empty directory: the initial state of the protocol. */
  method StartOnEmptyDirectory(codec: Codec, transport: Transport, segmentMaxBytes: int, publisherMaxEvents: int,
                               publisherMaxApproxBytes: int, jsonLength: ShareEvent -> nat, toCome: nat)
    returns (p: ShareEventOutboxPublisher)
    requires Lawful(codec) && transport.stream == []
    ensures p.Valid() && p.sys == INIT && p.transport == transport && p.outbox.codec == codec && p.toCome == toCome
  {
    hide Holds, Sound, Inv, AllRecords, Lawful, StandsAt;
    var directory := new WalDirectory();
    NothingStands(codec);
    var outbox := new FileShareEventOutbox(codec, directory, segmentMaxBytes, [], 0);
    InitInv(codec);
    InitialFiles(outbox);
    p := new ShareEventOutboxPublisher(outbox, transport, publisherMaxEvents, publisherMaxApproxBytes, jsonLength, toCome,
                                       [], INIT);
  }

  lemma NothingStands(c: Codec)
    ensures Ascending([]) && Sound(c, []) && StandsAt(c, [], NO_CHECKPOINT, 0)
  {
  }

  lemma InitialFiles(outbox: FileShareEventOutbox)
    requires outbox.Consistent() && outbox.chunks == INIT.chunks
    ensures |outbox.directory.segments| == 1 && outbox.directory.segments[0].bytes == []
  {
    assert Content(outbox.codec, outbox.chunks[0]) == [];
  }

  /** A crash at any await takes the process with its buffers; recovery and reopening of
      what is in the files is the Restart step of the protocol. */
  method CrashAndRestart(p: ShareEventOutboxPublisher) returns (ok: bool, q: ShareEventOutboxPublisher)
    requires p.Valid()
    modifies p.outbox.directory`segments
    ensures ok && q.Valid()
    ensures IsRestart(p.outbox.codec, p.outbox.segmentMaxBytes, p.sys, q.sys)
    ensures q.outbox.codec == p.outbox.codec && q.outbox.segmentMaxBytes == p.outbox.segmentMaxBytes
    ensures q.transport == p.transport && q.outbox.directory == p.outbox.directory
    ensures q.sys.publisher == Idle
  {
    hide Inv, IsRun, Exec, AllRecords, Snapshot, StandsAt, Recovery, Sound, Lawful, Content, Truncate, Ascending;
    ghost var c, max, s, steps := p.outbox.codec, p.outbox.segmentMaxBytes, p.sys, p.steps;
    ghost var kept := Truncate(c, s.chunks, s.flushed);
    p.InFiles();
    FilesAfterCrash(c, p.outbox.directory.segments, s, p.outbox.passed);
    ok := Recover(p.outbox.codec, p.outbox.directory);
    var outbox := new FileShareEventOutbox(p.outbox.codec, p.outbox.directory, p.outbox.segmentMaxBytes,
                                           kept, p.outbox.passed);
    RestartInv(c, max, s);
    StepInv(c, max, s, Restart);
    OneStep(c, max, s, Restart);
    RunConcat(c, max, INIT, steps, [Restart]);
    q := new ShareEventOutboxPublisher(outbox, p.transport, p.publisherMaxEvents, p.publisherMaxApproxBytes,
                                       p.jsonLength, p.toCome, steps + [Restart], Next(c, max, s, Restart));
  }

  /** What recovery finds and makes of it. */
  lemma FilesAfterCrash(c: Codec, segments: seq<Segment>, s: Sys, passed: nat)
    requires Lawful(c) && Inv(c, s) && s.passed == s.deleted + passed
    requires Stores(c, segments, s.chunks, s.flushed)
    ensures
      var kept := Truncate(c, s.chunks, s.flushed);
      && Ascending(kept) && Sound(c, kept)
      && Recovery(c, segments).Recovered?
      && StoresAll(c, Recovery(c, segments).segments, kept)
      && StandsAt(c, kept, s.checkpoint, passed)
  {
    hide Content, Flat, AllRecords, StandsAt, Recovery, Durable, FrameOf, CutLast, Sound;
    TruncateRecords(c, s.chunks, s.flushed);
    TruncateIsSound(c, s.chunks, s.flushed);
    CrashLeaves(c, segments, s.chunks, s.flushed);
    RecoveryMends(c, segments, CutLast(c, s.chunks, s.flushed));
    RecoveryKeepsCheckpoint(c, s.chunks, s.flushed, s.checkpoint, passed);
  }

  /** A process that ends inside a record, after any number of its bytes have reached the
      file, leaves what it would have left had it finished the record and its buffer been
      lost behind these bytes. So the Restart step covers it. */
  lemma CrashInsideRecord(c: Codec, segments: seq<Segment>, chunks: seq<Chunk>, e: ShareEvent, n: nat)
    requires |chunks| == |segments| > 0 && !Dark(chunks) && n <= |FrameOf(c, e)|
    requires
      var k := |chunks| - 1;
      && (forall i | 0 <= i < k :: segments[i] == Segment(chunks[i].index, Content(c, chunks[i])))
      && segments[k] == Segment(chunks[k].index, Content(c, chunks[k]) + FrameOf(c, e)[..n])
    ensures Stores(c, segments, Write(c, chunks, e), |Content(c, chunks[|chunks| - 1])| + n)
  {
    hide Content, FrameOf, Write, Darken;
    var k := |chunks| - 1;
    WriteIsDarken(c, chunks, e);
    WriteKeeps(c, chunks, e);
    TakeOfSum(Content(c, chunks[k]), FrameOf(c, e), n);
  }

  lemma WriteKeeps(c: Codec, chunks: seq<Chunk>, e: ShareEvent)
    requires |chunks| > 0 && !Dark(chunks)
    ensures
      var r, k := Write(c, chunks, e), |chunks| - 1;
      && r[..k] == chunks[..k] && r[k].index == chunks[k].index
      && Content(c, r[k]) == Content(c, chunks[k]) + FrameOf(c, e)
  {
    hide FrameOf, Frames;
    var k := |chunks| - 1;
    WriteIsDarken(c, chunks, e);
    var f := Frames(c, chunks[k].events);
    assert f + [] == f && [] + FrameOf(c, e) == FrameOf(c, e);
  }
}
