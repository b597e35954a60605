/** The whole path: the outbox with its publisher and the consumers that write the database,
    in any interleaving, with crashes on both sides. */
module Pipeline {
  import opened Contracts
  import opened Framing
  import opened Log
  import opened Dedup
  import opened Outbox
  import opened SegmentNames
  import Publisher
  import Protocol
  import DbWriter

  /** The outbox and its stream, and the consumer group of that stream with its tables. */
  datatype State = State(outbox: Protocol.Sys, db: DbWriter.Sys)

  /** A batch published by the outbox is an entry of the consumers' stream. */
  datatype Step = Produce(produced: Protocol.Step) | Consume(consumed: DbWriter.Step)

  const START := State(Protocol.INIT, DbWriter.START)

  predicate Enabled(c: Codec, max: int, s: State, step: Step) {
    match step
    case Produce(p) => |s.outbox.chunks| > 0 && Protocol.Enabled(c, max, s.outbox, p)
    case Consume(d) => !d.Publish? && DbWriter.Enabled(s.db, d)
  }

  function Next(c: Codec, max: int, s: State, step: Step): State
    requires Enabled(c, max, s, step)
  {
    match step
    case Produce(p) =>
      State(Protocol.Next(c, max, s.outbox, p),
            if p.Publish? then DbWriter.Next(s.db, DbWriter.Publish(EventsOf(s.outbox.publisher.records))) else s.db)
    case Consume(d) => s.(db := DbWriter.Next(s.db, d))
  }

  predicate IsRun(c: Codec, max: int, s: State, steps: seq<Step>)
    decreases |steps|
  {
    steps == [] || (Enabled(c, max, s, steps[0]) && IsRun(c, max, Next(c, max, s, steps[0]), steps[1..]))
  }

  function Exec(c: Codec, max: int, s: State, steps: seq<Step>): State
    requires IsRun(c, max, s, steps)
    decreases |steps|
  {
    if steps == [] then s else Exec(c, max, Next(c, max, s, steps[0]), steps[1..])
  }

  // ---------- What every run keeps ----------

  ghost predicate Inv(c: Codec, s: State) {
    && Protocol.Inv(c, s.outbox)
    && DbWriter.Inv(s.db)
    && Joined(s.db.stream) == s.outbox.stream
  }

  lemma StartInv(c: Codec)
    ensures Inv(c, START)
  {
    Protocol.InitInv(c);
    DbWriter.StartInv();
  }

  lemma StepInv(c: Codec, max: int, s: State, step: Step)
    requires Lawful(c) && Inv(c, s) && Enabled(c, max, s, step)
    ensures Inv(c, Next(c, max, s, step))
  {
    hide Protocol.Inv, DbWriter.Inv, DbWriter.InsertAll, Joined;
    match step
    case Produce(p) =>
      Protocol.StepInv(c, max, s.outbox, p);
      StreamOf(c, max, s.outbox, p);
      if p.Publish? {
        var entry := EventsOf(s.outbox.publisher.records);
        DbWriter.StepInv(s.db, DbWriter.Publish(entry));
        JoinedMore(s.db.stream, entry);
      }
    case Consume(d) =>
      DbWriter.StepInv(s.db, d);
  }

  lemma StreamOf(c: Codec, max: int, s: Protocol.Sys, p: Protocol.Step)
    requires |s.chunks| > 0 && Protocol.Enabled(c, max, s, p)
    ensures Protocol.Next(c, max, s, p).stream
      == if p.Publish? then s.stream + EventsOf(s.publisher.records) else s.stream
  {
    hide Flat, PutAll, Hidden, Drop, Snapshot, Truncate, Sound, Content, FrameOf;
  }

  /** A beginning of the log all of which is out of the buffer. */
  predicate Kept(c: Codec, s: Protocol.Sys, log: seq<ShareEvent>)
    requires |s.chunks| > 0
  {
    log <= s.log && |log| <= s.deleted + Protocol.Safe(c, s)
  }

  /** No step, not even a crash, takes it away. */
  lemma KeptStep(c: Codec, max: int, s: Protocol.Sys, p: Protocol.Step, log: seq<ShareEvent>)
    requires Lawful(c) && Protocol.Inv(c, s) && Protocol.Enabled(c, max, s, p) && Kept(c, s, log)
    ensures |Protocol.Next(c, max, s, p).chunks| > 0 && Kept(c, Protocol.Next(c, max, s, p), log)
  {
    hide Protocol.Inv, AllRecords, Flat, PutAll, Hidden, Drop, Snapshot, Truncate, Sound, Content, FrameOf, Durable, Distinct,
         StandsAt, Ascending;
    KeptLogInv(c, s);
    var t := Protocol.Next(c, max, s, p);
    match p
    case Append(es, flushed) =>
      Protocol.AppendLogInv(c, max, s, es, flushed);
    case Tear(e, bytes, flushed) =>
      DarkenDurableStep(c, max, s, e, bytes, flushed);
    case Rotate =>
      Protocol.RotateRecords(c, s.chunks, Chunk(Protocol.Last(s).index + 1, [], []));
      Protocol.RecordCount(c, s);
      EventsOfAll(c, s.chunks);
    case Read(_) =>
    case Publish =>
    case Advance(deletions) => KeptAdvance(c, max, s, deletions, log);
    case Restart => KeptRestart(c, max, s, log);
  }

  lemma KeptLogInv(c: Codec, s: Protocol.Sys)
    requires Protocol.Inv(c, s)
    ensures Protocol.LogInv(c, s)
  {
  }

  lemma DarkenDurableStep(c: Codec, max: int, s: Protocol.Sys, e: ShareEvent, bytes: nat, flushed: nat)
    requires |s.chunks| > 0 && Protocol.Enabled(c, max, s, Protocol.Tear(e, bytes, flushed))
    ensures
      var t := Protocol.Next(c, max, s, Protocol.Tear(e, bytes, flushed));
      |t.chunks| > 0 && t.deleted == s.deleted && t.log == s.log && Protocol.Safe(c, s) <= Protocol.Safe(c, t)
  {
    hide FrameOf, Darken, Durable, Content, Sound;
    Protocol.DarkenDurable(c, s.chunks, FrameOf(c, e)[..bytes], s.flushed, flushed);
  }

  lemma KeptAdvance(c: Codec, max: int, s: Protocol.Sys, deletions: nat, log: seq<ShareEvent>)
    requires Protocol.Inv(c, s) && Protocol.Enabled(c, max, s, Protocol.Advance(deletions)) && Kept(c, s, log)
    ensures
      var t := Protocol.Next(c, max, s, Protocol.Advance(deletions));
      |t.chunks| > 0 && Kept(c, t, log)
  {
    hide Protocol.Inv, Protocol.Enabled, Protocol.Next, AllRecords, Flat, Durable;
    var d := Protocol.AdvanceShape(c, max, s, deletions);
    Protocol.AdvanceHistory(s, c, max, deletions, d);
    Protocol.DropDurable(c, s, Protocol.Next(c, max, s, Protocol.Advance(deletions)), d);
  }

  lemma KeptRestart(c: Codec, max: int, s: Protocol.Sys, log: seq<ShareEvent>)
    requires Lawful(c) && Protocol.Inv(c, s) && Kept(c, s, log) && Protocol.Enabled(c, max, s, Protocol.Restart)
    ensures
      var t := Protocol.Next(c, max, s, Protocol.Restart);
      |t.chunks| > 0 && Kept(c, t, log)
  {
    hide Protocol.Inv, AllRecords, Flat, Durable, Truncate, Content, Ascending, Distinct;
    KeptLogInv(c, s);
    Protocol.RestartInv(c, max, s);
    TruncateRecords(c, s.chunks, s.flushed);
  }

  lemma {:induction false} RunInv(c: Codec, max: int, s: State, steps: seq<Step>, log: seq<ShareEvent>)
    requires Lawful(c) && Inv(c, s) && IsRun(c, max, s, steps)
    requires |s.outbox.chunks| > 0 && Kept(c, s.outbox, log)
    ensures
      var t := Exec(c, max, s, steps);
      Inv(c, t) && |t.outbox.chunks| > 0 && Kept(c, t.outbox, log)
    decreases |steps|
  {
    hide Protocol.Inv, DbWriter.Inv, Protocol.Next, Protocol.Enabled, Kept, Joined;
    if steps != [] {
      StepInv(c, max, s, steps[0]);
      if steps[0].Produce? { KeptStep(c, max, s.outbox, steps[0].produced, log); }
      RunInv(c, max, Next(c, max, s, steps[0]), steps[1..], log);
    }
  }

  // ---------- From the log to the rows ----------

  /** An event id names one event. */
  ghost predicate ConsistentIds(log: seq<ShareEvent>) {
    forall e, f | e in log && f in log && e.eventId == f.eventId :: e == f
  }

  /** The publisher has nothing left to read, the group nothing to deliver, and nothing is
      pending. */
  predicate Drained(c: Codec, s: State) {
    && Snapshot(c, s.outbox.chunks, s.outbox.checkpoint) == []
    && s.db.next == |s.db.stream| && s.db.pending == {}
  }

  /** The event has its row, and no other row has its id. */
  ghost predicate OneRow(t: DbWriter.Tables, e: ShareEvent) {
    exists i :: 0 <= i < |t.shareEvents| && t.shareEvents[i] == e
      && forall j | 0 <= j < |t.shareEvents| && j != i :: t.shareEvents[j].eventId != e.eventId
  }

  lemma StreamIsLog(c: Codec, s: Protocol.Sys, e: ShareEvent)
    requires Protocol.Inv(c, s)
    ensures e in s.stream ==> e in s.log
    ensures Snapshot(c, s.chunks, s.checkpoint) == [] ==> (e in s.stream <==> e in s.log)
  {
    hide Protocol.Inv, Distinct, Snapshot;
    Protocol.InvDelivers(c, s);
    assert e in s.stream <==> e in Distinct(s.stream);
    assert e in s.log <==> e in Distinct(s.log);
  }

  /** Only logged events have rows. */
  lemma RowsAreLogged(c: Codec, s: State, i: nat)
    requires Inv(c, s) && i < |s.db.tables.shareEvents|
    ensures s.db.tables.shareEvents[i] in s.outbox.log
  {
    hide Protocol.Inv, Joined, DbWriter.FirstById, DbWriter.EventRows;
    var firsts := DbWriter.FirstById(s.db.history);
    DbWriter.InvAccounts(s.db);
    DbWriter.EventRowIds(firsts);
    var e := s.db.tables.shareEvents[i];
    assert DbWriter.FromCommitted(s.db, firsts[i].event);
    InJoined(s.db.stream, e);
    StreamIsLog(c, s.outbox, e);
  }

  /** An acknowledged entry's event has its one row. */
  lemma AcknowledgedHasRow(d: DbWriter.Sys, k: nat, e: ShareEvent)
    requires DbWriter.Inv(d) && DbWriter.ConsistentIds(d.stream)
    requires k in d.acknowledged && k < |d.stream| && e in d.stream[k]
    ensures OneRow(d.tables, e)
  {
    hide DbWriter.FirstById, DbWriter.EventRows, DbWriter.ShareRows, DbWriter.BlockRows, DbWriter.Ids, DbWriter.ConsistentIds,
         DbWriter.HistoryIsCommitted;
    var firsts := DbWriter.FirstById(d.history);
    DbWriter.InvAccounts(d);
    DbWriter.EventRowIds(firsts);
    var n :| 0 <= n < |d.stream[k]| && d.stream[k][n] == e;
    assert DbWriter.InHistory(firsts, d.stream[k][n]);
    var i :| 0 <= i < |firsts| && firsts[i].event == e;
    assert DbWriter.EventRows(firsts)[i] == e;
    RowIsOne(firsts, i);
  }

  lemma RowIsOne(firsts: seq<DbWriter.Stamped>, i: nat)
    requires DbWriter.UniqueIds(firsts) && i < |firsts|
    ensures forall j | 0 <= j < |firsts| && j != i :: firsts[j].event.eventId != firsts[i].event.eventId
  {
  }

  /** In a drained state every logged event has its one row. */
  lemma LoggedHasRow(c: Codec, s: State, e: ShareEvent)
    requires Inv(c, s) && Drained(c, s) && ConsistentIds(s.outbox.log) && e in s.outbox.log
    ensures OneRow(s.db.tables, e)
  {
    hide Protocol.Inv, Joined, Snapshot, DbWriter.OneRowEach, DbWriter.HistoryIsCommitted, OneRow, ConsistentIds;
    StreamIsLog(c, s.outbox, e);
    InJoined(s.db.stream, e);
    var k :| 0 <= k < |s.db.stream| && e in s.db.stream[k];
    StreamConsistent(c, s);
    AcknowledgedHasRow(s.db, k, e);
  }

  lemma StreamConsistent(c: Codec, s: State)
    requires Inv(c, s) && ConsistentIds(s.outbox.log)
    ensures DbWriter.ConsistentIds(s.db.stream)
  {
    hide Protocol.Inv, DbWriter.Inv, Joined;
    forall j, k, e, f | 0 <= j < |s.db.stream| && 0 <= k < |s.db.stream| && e in s.db.stream[j] && f in s.db.stream[k]
      ensures e.eventId == f.eventId ==> e == f
    {
      InJoined(s.db.stream, e);
      InJoined(s.db.stream, f);
      StreamIsLog(c, s.outbox, e);
      StreamIsLog(c, s.outbox, f);
    }
  }

  /** From end to end: after every run of the outbox, its publisher and the consumers, in any
      interleaving, with crashes, tears, lost replies and redeliveries: rows are of logged
      events only, and once everything is drained every logged event has exactly one. */
  lemma ExactlyOnceEndToEnd(c: Codec, max: int, steps: seq<Step>)
    requires Lawful(c) && IsRun(c, max, START, steps)
    ensures
      var t := Exec(c, max, START, steps);
      && (forall i | 0 <= i < |t.db.tables.shareEvents| :: t.db.tables.shareEvents[i] in t.outbox.log)
      && (Drained(c, t) && ConsistentIds(t.outbox.log) ==> forall e | e in t.outbox.log :: OneRow(t.db.tables, e))
  {
    hide IsRun, Exec, Inv, Drained, OneRow, ConsistentIds;
    StartInv(c);
    RunInv(c, max, START, steps, []);
    var t := Exec(c, max, START, steps);
    forall i | 0 <= i < |t.db.tables.shareEvents| ensures t.db.tables.shareEvents[i] in t.outbox.log {
      RowsAreLogged(c, t, i);
    }
    if Drained(c, t) && ConsistentIds(t.outbox.log) {
      forall e | e in t.outbox.log ensures OneRow(t.db.tables, e) { LoggedHasRow(c, t, e); }
    }
  }

  /** What a writer's append wrote where a reader gets, and flushed, survives every run from
      then on, crashes included; and once everything is drained it has its one row each. */
  lemma AppendedReachesTheDatabase(c: Codec, max: int, s: State, batch: seq<ShareEvent>, looks: nat, steps: seq<Step>)
    returns (append: seq<Protocol.Step>, after: State)
    requires Lawful(c) && Inv(c, s) && |s.outbox.chunks| > 0
    requires Protocol.Last(s.outbox).index + |batch| < LONG_LIMIT
    requires Sound(c, Appending(c, max, s.outbox.chunks, batch, looks))
    ensures Protocol.IsRun(c, max, s.outbox, append) && after == s.(outbox := Protocol.Exec(c, max, s.outbox, append))
    ensures after.outbox.chunks == Appending(c, max, s.outbox.chunks, batch, looks)
    ensures IsRun(c, max, after, steps) ==>
      var t := Exec(c, max, after, steps);
      var written := batch[..RecordsWritten(looks, LeadingValid(c, batch))];
      && s.outbox.log + written[Hidden(c, max, s.outbox.chunks, written)..] <= t.outbox.log
      && (Drained(c, t) && ConsistentIds(t.outbox.log) ==>
            forall e | e in written[Hidden(c, max, s.outbox.chunks, written)..] :: OneRow(t.db.tables, e))
  {
    hide Protocol.Inv, DbWriter.Inv, Joined, Appending, Hidden, LeadingValid, IsRun, Exec, Drained, OneRow, ConsistentIds,
         Protocol.IsRun, Protocol.Exec, Flat, Content, AllGrown, RecordsWritten, Kept, AllRecords, Durable, Sound, Ascending;
    var r := Appending(c, max, s.outbox.chunks, batch, looks);
    Grows(c, max, s.outbox, batch, looks);
    var t;
    append, t := Publisher.AppendRun(c, max, s.outbox, batch, looks, |Content(c, r[|r| - 1])|);
    after := s.(outbox := t);
    KeptFlushed(c, t);
    AppendStream(c, s.outbox, t);
    if IsRun(c, max, after, steps) {
      RunInv(c, max, after, steps, t.log);
      var end := Exec(c, max, after, steps);
      KeptIsLogged(c, end.outbox, t.log);
      var written := batch[..RecordsWritten(looks, LeadingValid(c, batch))];
      if Drained(c, end) && ConsistentIds(end.outbox.log) {
        forall e | e in written[Hidden(c, max, s.outbox.chunks, written)..] ensures OneRow(end.db.tables, e) {
          assert e in t.log;
          LoggedHasRow(c, end, e);
        }
      }
    }
  }

  lemma Grows(c: Codec, max: int, s: Protocol.Sys, batch: seq<ShareEvent>, looks: nat)
    requires Protocol.Inv(c, s)
    ensures
      var r := Appending(c, max, s.chunks, batch, looks);
      |s.chunks| > 0 && (|r| == |s.chunks| ==> s.flushed <= |Content(c, r[|r| - 1])|)
  {
    hide Appending, Content, Flat, AllRecords, StandsAt, Protocol.PublishInv, AllGrown;
    AppendingGrows(c, max, s.chunks, batch, looks);
    Publisher.Sizes(c, s.chunks, Appending(c, max, s.chunks, batch, looks));
  }

  /** After a flush all of the log is out of the buffer. */
  lemma KeptFlushed(c: Codec, s: Protocol.Sys)
    requires Protocol.Inv(c, s)
    requires s.flushed == |Content(c, Protocol.Last(s))|
    ensures Kept(c, s, s.log)
  {
    hide Frames, Flat, AllRecords, StandsAt, Protocol.PublishInv, Durable;
    Protocol.RecordCount(c, s);
    AllDurable(c, s.chunks, s.flushed);
  }

  lemma AppendStream(c: Codec, s: Protocol.Sys, t: Protocol.Sys)
    requires Publisher.OnlyAppended(c, s, t)
    ensures t.stream == s.stream
  {
  }

  lemma KeptIsLogged(c: Codec, s: Protocol.Sys, log: seq<ShareEvent>)
    requires |s.chunks| > 0 && Kept(c, s, log)
    ensures log <= s.log
  {
  }

  // ---------- A run ----------

  function Produced(steps: seq<Protocol.Step>): (r: seq<Step>)
    ensures |r| == |steps|
  {
    seq(|steps|, i requires 0 <= i < |steps| => Produce(steps[i]))
  }

  function Publications(steps: seq<Protocol.Step>): nat {
    if steps == [] then 0 else (if steps[0].Publish? then 1 else 0) + Publications(steps[1..])
  }

  /** A run of the outbox is one of the whole while the consumers rest. */
  lemma {:induction false} Lift(c: Codec, max: int, s: State, steps: seq<Protocol.Step>)
    requires Protocol.IsRun(c, max, s.outbox, steps)
    ensures IsRun(c, max, s, Produced(steps))
    ensures
      var t := Exec(c, max, s, Produced(steps));
      && t.outbox == Protocol.Exec(c, max, s.outbox, steps)
      && t.db == s.db.(stream := t.db.stream) && |t.db.stream| == |s.db.stream| + Publications(steps)
    decreases |steps|
  {
    hide Protocol.Enabled, Protocol.Next;
    if steps != [] {
      assert Produced(steps)[1..] == Produced(steps[1..]);
      Lift(c, max, Next(c, max, s, Produce(steps[0])), steps[1..]);
    }
  }

  lemma {:induction false} RunConcat(c: Codec, max: int, s: State, steps: seq<Step>, more: seq<Step>)
    requires IsRun(c, max, s, steps) && IsRun(c, max, Exec(c, max, s, steps), more)
    ensures IsRun(c, max, s, steps + more)
    ensures Exec(c, max, s, steps + more) == Exec(c, max, Exec(c, max, s, steps), more)
    decreases |steps|
  {
    hide Enabled, Next;
    if steps == [] {
      assert steps + more == more;
    } else {
      assert (steps + more)[1..] == steps[1..] + more;
      RunConcat(c, max, Next(c, max, s, steps[0]), steps[1..], more);
    }
  }

  /** An entry of one event is delivered, committed and acknowledged. */
  lemma ConsumesOne(c: Codec, max: int, s: State, e: ShareEvent, now: int) returns (steps: seq<Step>)
    requires s.db == DbWriter.START.(stream := [[e]])
    ensures IsRun(c, max, s, steps)
    ensures
      var t := Exec(c, max, s, steps);
      && t.outbox == s.outbox && t.db.stream == [[e]]
      && t.db.next == 1 && t.db.pending == {} && t.db.tables.shareEvents == [e]
  {
    hide DbWriter.MapShare, DbWriter.MapPendingBlock;
    var deliver, commit, acknowledge :=
      Consume(DbWriter.Deliver(1)), Consume(DbWriter.Commit(0, now)), Consume(DbWriter.Acknowledge(0));
    var one := Next(c, max, s, deliver);
    var two := Next(c, max, one, commit);
    var xs := DbWriter.Stamp([e], now);
    assert xs[..0] == [] && xs == [DbWriter.Stamped(e, now)];
    assert two.db.tables == DbWriter.Insert(DbWriter.InsertAll(DbWriter.NO_ROWS, xs[..0]), xs[0]);
    var three := Next(c, max, two, acknowledge);
    steps := [deliver, commit, acknowledge];
    assert steps[1..] == [commit, acknowledge] && steps[1..][1..] == [acknowledge] && [acknowledge][1..] == [];
    assert IsRun(c, max, two, [acknowledge]) && Exec(c, max, two, [acknowledge]) == three;
    assert IsRun(c, max, one, [commit, acknowledge]) && Exec(c, max, one, [commit, acknowledge]) == three;
  }

  /** The promise is not empty: with the sample codec any text goes all the way from the first
      append to its row, and then everything is drained. */
  lemma PathExists(id: string, max: int, now: int) returns (steps: seq<Step>)
    requires IsText(id)
    ensures Lawful(SAMPLE_CODEC) && IsRun(SAMPLE_CODEC, max, START, steps)
    ensures
      var t := Exec(SAMPLE_CODEC, max, START, steps);
      Drained(SAMPLE_CODEC, t) && t.outbox.log == [Sample(id)] && t.db.tables.shareEvents == [Sample(id)]
  {
    hide IsRun, Exec, Protocol.IsRun, Protocol.Exec, Inv, Lawful, Snapshot, FrameOf, Next, Protocol.Inv;
    SampleCodecIsLawful();
    var c, e := SAMPLE_CODEC, Sample(id);
    var run := ProducesOne(c, max, e);
    Lift(c, max, START, run);
    var s := Exec(c, max, START, Produced(run));
    StartInv(c);
    KeptNothing(c);
    RunInv(c, max, START, Produced(run), []);
    SingleEntry(c, s, e);
    var more := ConsumesOne(c, max, s, e, now);
    RunConcat(c, max, START, Produced(run), more);
    NothingToRead(c, s);
    steps := Produced(run) + more;
  }

  lemma KeptNothing(c: Codec)
    ensures |START.outbox.chunks| > 0 && Kept(c, START.outbox, [])
  {
  }

  lemma ProducesOne(c: Codec, max: int, e: ShareEvent) returns (run: seq<Protocol.Step>)
    requires Storable(c, e)
    ensures Protocol.IsRun(c, max, Protocol.INIT, run) && Publications(run) == 1
    ensures
      var t := Protocol.Exec(c, max, Protocol.INIT, run);
      t.stream == [e] && t.log == [e] && t.passed == 1
  {
    hide FrameOf, Protocol.Enabled, Protocol.Next;
    var s := Protocol.FirstAppend(c, max, e);
    Protocol.Delivers(c, max, s, e);
    var rest := [Protocol.Read(1), Protocol.Publish, Protocol.Advance(0)];
    run := [Protocol.Append([e], |FrameOf(c, e)|)] + rest;
    assert run[1..] == rest;
    assert rest[1..] == [Protocol.Publish, Protocol.Advance(0)] && rest[1..][1..] == [Protocol.Advance(0)];
    assert [Protocol.Advance(0)][1..] == [];
    assert Publications(rest[1..][1..]) == 0 && Publications(rest[1..]) == 1 && Publications(rest) == 1;
  }

  lemma NothingJoined()
    ensures Joined<ShareEvent>([]) == []
  {
  }

  lemma SingleEntry(c: Codec, s: State, e: ShareEvent)
    requires Inv(c, s) && s.outbox.stream == [e] && |s.db.stream| == 1
    ensures s.db.stream == [[e]]
  {
    hide Protocol.Inv, DbWriter.Inv;
    var d := s.db.stream;
    assert d == [] + [d[0]];
    JoinedMore([], d[0]);
    NothingJoined();
    assert [] + d[0] == d[0] == [e];
  }

  lemma NothingToRead(c: Codec, s: State)
    requires Inv(c, s) && s.outbox.passed == |s.outbox.log|
    ensures Snapshot(c, s.outbox.chunks, s.outbox.checkpoint) == []
  {
    hide Protocol.Inv, Snapshot, Distinct;
    Protocol.InvDelivers(c, s.outbox);
    assert |EventsOf(Snapshot(c, s.outbox.chunks, s.outbox.checkpoint))| == 0;
  }
}
