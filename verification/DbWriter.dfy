/** ShareBatchPersistenceService and DbWriterService: at-least-once delivery from a
    consumer group becomes exactly one accounting row per event. */
module DbWriter {
  import opened Contracts
  import opened Cancellation

  datatype PersistedShare = PersistedShare(
    poolId: string, blockHeight: int, difficulty: real, networkDifficulty: real, miner: string,
    worker: string, userAgent: string, ipAddress: string, source: string, created: int)

  datatype PendingBlock = PendingBlock(
    poolId: string, blockHeight: int, networkDifficulty: real, status: string, blockType: string,
    transactionConfirmationData: string, miner: string, reward: real, source: string, hash: string,
    confirmationProgress: real, created: int)

  /** default(DateTime), in milliseconds from the Unix epoch. */
  const DEFAULT_CREATED := -62_135_596_800_000

  predicate IsPersistibleShare(e: ShareEvent) {
    e.eventType.ShareAccepted? || e.eventType.BlockCandidate? || e.eventType.BlockAccepted?
  }

  function HeightOrZero(h: Option<int>): int {
    match h case Some(v) => v case None => 0
  }

  function MapShare(e: ShareEvent, now: int): PersistedShare {
    PersistedShare(e.poolId, HeightOrZero(e.blockHeight), e.difficulty, e.networkDifficulty, e.miner, e.worker,
                   e.userAgent, e.ipAddress, e.source, if e.created == DEFAULT_CREATED then now else e.created)
  }

  function MapPendingBlock(e: ShareEvent): PendingBlock {
    PendingBlock(e.poolId, HeightOrZero(e.blockHeight), e.networkDifficulty, "pending", e.blockType,
                 e.transactionConfirmationData, e.miner, e.blockReward, e.source, e.blockHash, 0.0, e.created)
  }

  /** The four tables; `processed` and `shareEvents` have the event id as their key. */
  datatype Tables = Tables(
    processed: set<string>, shareEvents: seq<ShareEvent>, shares: seq<PersistedShare>, blocks: seq<PendingBlock>)

  const NO_ROWS := Tables({}, [], [], [])

  // ---------- What the tables ought to hold ----------

  /** An event with the clock reading of the transaction that committed it. */
  datatype Stamped = Stamped(event: ShareEvent, now: int)

  /** The first occurrence of every event id, in order. */
  function FirstById(h: seq<Stamped>): (r: seq<Stamped>)
    ensures |r| <= |h|
  {
    if h == [] then []
    else
      var r := FirstById(h[..|h| - 1]);
      var x := h[|h| - 1];
      if x.event.eventId in Ids(r) then r else r + [x]
  }

  function Ids(h: seq<Stamped>): set<string> {
    set i | 0 <= i < |h| :: h[i].event.eventId
  }

  function EventRows(h: seq<Stamped>): seq<ShareEvent> {
    if h == [] then [] else EventRows(h[..|h| - 1]) + [h[|h| - 1].event]
  }

  function ShareRows(h: seq<Stamped>): seq<PersistedShare> {
    if h == [] then []
    else
      var x := h[|h| - 1];
      ShareRows(h[..|h| - 1]) + (if IsPersistibleShare(x.event) then [MapShare(x.event, x.now)] else [])
  }

  function BlockRows(h: seq<Stamped>): seq<PendingBlock> {
    if h == [] then []
    else
      var x := h[|h| - 1];
      BlockRows(h[..|h| - 1]) + (if x.event.eventType.BlockCandidate? then [MapPendingBlock(x.event)] else [])
  }

  /** Those of some types, in order. */
  function OfTypes(h: seq<Stamped>, types: set<EventType>): (r: seq<Stamped>)
    ensures forall x :: x in r <==> x in h && x.event.eventType in types
  {
    if h == [] then []
    else
      var init, x := h[..|h| - 1], h[|h| - 1];
      assert h == init + [x];
      OfTypes(init, types) + if x.event.eventType in types then [x] else []
  }

  /** The row of the shares table for an event, column by column. An event without a time gets
      the time of its transaction. */
  predicate IsShareRow(r: PersistedShare, x: Stamped) {
    var e := x.event;
    && r.poolId == e.poolId && r.miner == e.miner && r.worker == e.worker
    && r.difficulty == e.difficulty && r.networkDifficulty == e.networkDifficulty
    && (e.blockHeight.Some? ==> r.blockHeight == e.blockHeight.value) && (e.blockHeight.None? ==> r.blockHeight == 0)
    && r.userAgent == e.userAgent && r.ipAddress == e.ipAddress && r.source == e.source
    && r.created == if e.created == -62135596800000 then x.now else e.created
  }

  /** The row of the blocks table for an event. */
  predicate IsBlockRow(r: PendingBlock, e: ShareEvent) {
    && r.poolId == e.poolId && r.miner == e.miner && r.networkDifficulty == e.networkDifficulty
    && (e.blockHeight.Some? ==> r.blockHeight == e.blockHeight.value) && (e.blockHeight.None? ==> r.blockHeight == 0)
    && r.status == "pending" && r.confirmationProgress == 0.0 && r.reward == e.blockReward
    && r.blockType == e.blockType && r.hash == e.blockHash
    && r.transactionConfirmationData == e.transactionConfirmationData && r.source == e.source && r.created == e.created
  }

  lemma MappedRows(x: Stamped)
    ensures IsShareRow(MapShare(x.event, x.now), x) && IsBlockRow(MapPendingBlock(x.event), x.event)
    ensures IsPersistibleShare(x.event) <==> x.event.eventType in {ShareAccepted, BlockCandidate, BlockAccepted}
  {
  }

  /** Which events have which rows: a share for each accepted share and each block found or
      accepted, a block for each candidate, in order, and no others. */
  lemma {:induction false} RowsAre(h: seq<Stamped>)
    ensures
      var rows, xs := ShareRows(h), OfTypes(h, {ShareAccepted, BlockCandidate, BlockAccepted});
      |rows| == |xs| && forall k | 0 <= k < |rows| :: IsShareRow(rows[k], xs[k])
    ensures
      var rows, xs := BlockRows(h), OfTypes(h, {BlockCandidate});
      |rows| == |xs| && forall k | 0 <= k < |rows| :: IsBlockRow(rows[k], xs[k].event)
    decreases |h|
  {
    hide MapShare, MapPendingBlock, IsShareRow, IsBlockRow, IsPersistibleShare;
    if h != [] {
      var last := h[|h| - 1];
      RowsAre(h[..|h| - 1]);
      MappedRows(last);
      assert last.event.eventType in {BlockCandidate} <==> last.event.eventType.BlockCandidate?;
    }
  }

  /** One row of each kind for the first occurrence of each id, none for repeats. */
  predicate OneRowEach(t: Tables, h: seq<Stamped>) {
    var firsts := FirstById(h);
    && t.processed == Ids(h)
    && t.shareEvents == EventRows(firsts)
    && t.shares == ShareRows(firsts)
    && t.blocks == BlockRows(firsts)
  }

  predicate UniqueIds(h: seq<Stamped>) {
    forall i, j | 0 <= i < j < |h| :: h[i].event.eventId != h[j].event.eventId
  }

  lemma {:induction false} FirstsAreUnique(h: seq<Stamped>)
    ensures UniqueIds(FirstById(h)) && Ids(FirstById(h)) == Ids(h)
    ensures forall x | x in FirstById(h) :: x in h
    decreases |h|
  {
    if h != [] {
      var init, x := h[..|h| - 1], h[|h| - 1];
      FirstsAreUnique(init);
      assert h == init + [x];
      IdsSnoc(init, x);
      var r := FirstById(init);
      IdsSnoc(r, x);
      forall i | 0 <= i < |r| ensures r[i].event.eventId in Ids(r) {}
    }
  }

  lemma IdsSnoc(h: seq<Stamped>, x: Stamped)
    ensures Ids(h + [x]) == Ids(h) + {x.event.eventId}
  {
    var g := h + [x];
    forall id | id in Ids(h) + {x.event.eventId} ensures id in Ids(g) {
      if id in Ids(h) {
        var i :| 0 <= i < |h| && h[i].event.eventId == id;
        assert g[i] == h[i];
      } else {
        assert g[|h|] == x;
      }
    }
  }

  // ---------- One transaction ----------

  /** The body of the loop in PersistAsync. */
  function Insert(t: Tables, x: Stamped): Tables {
    var e := x.event;
    if e.eventId in t.processed then t
    else Tables(
      t.processed + {e.eventId},
      if exists i :: 0 <= i < |t.shareEvents| && t.shareEvents[i].eventId == e.eventId then t.shareEvents
      else t.shareEvents + [e],
      if IsPersistibleShare(e) then t.shares + [MapShare(e, x.now)] else t.shares,
      if e.eventType.BlockCandidate? then t.blocks + [MapPendingBlock(e)] else t.blocks)
  }

  function InsertAll(t: Tables, xs: seq<Stamped>): Tables {
    if xs == [] then t else Insert(InsertAll(t, xs[..|xs| - 1]), xs[|xs| - 1])
  }

  function Stamp(events: seq<ShareEvent>, now: int): (r: seq<Stamped>)
    ensures |r| == |events|
  {
    seq(|events|, i requires 0 <= i < |events| => Stamped(events[i], now))
  }

  lemma InsertOneRow(t: Tables, h: seq<Stamped>, x: Stamped)
    requires OneRowEach(t, h)
    ensures OneRowEach(Insert(t, x), h + [x])
  {
    hide EventRows, ShareRows, BlockRows, FirstById, MapShare, MapPendingBlock;
    var r := FirstById(h);
    FirstByIdSnoc(h, x);
    FirstsAreUnique(h);
    IdsSnoc(h, x);
    RowsSnoc(r, x);
    EventRowIds(r);
  }

  lemma FirstByIdSnoc(h: seq<Stamped>, x: Stamped)
    ensures FirstById(h + [x]) == if x.event.eventId in Ids(FirstById(h)) then FirstById(h) else FirstById(h) + [x]
  {
    assert (h + [x])[..|h|] == h;
  }

  lemma RowsSnoc(r: seq<Stamped>, x: Stamped)
    ensures EventRows(r + [x]) == EventRows(r) + [x.event]
    ensures ShareRows(r + [x]) == ShareRows(r) + (if IsPersistibleShare(x.event) then [MapShare(x.event, x.now)] else [])
    ensures BlockRows(r + [x])
         == BlockRows(r) + (if x.event.eventType.BlockCandidate? then [MapPendingBlock(x.event)] else [])
  {
    hide MapShare, MapPendingBlock;
    assert (r + [x])[..|r|] == r;
  }

  lemma {:induction false} EventRowIds(r: seq<Stamped>)
    ensures |EventRows(r)| == |r|
    ensures forall i | 0 <= i < |r| :: EventRows(r)[i] == r[i].event
    ensures forall i | 0 <= i < |EventRows(r)| :: EventRows(r)[i].eventId in Ids(r)
    decreases |r|
  {
    if r != [] { EventRowIds(r[..|r| - 1]); }
  }

  lemma {:induction false} InsertAllRows(t: Tables, h: seq<Stamped>, xs: seq<Stamped>)
    requires OneRowEach(t, h)
    ensures OneRowEach(InsertAll(t, xs), h + xs)
    decreases |xs|
  {
    hide OneRowEach, Insert;
    if xs == [] {
      assert h + xs == h;
    } else {
      var init, x := xs[..|xs| - 1], xs[|xs| - 1];
      InsertAllRows(t, h, init);
      InsertOneRow(InsertAll(t, init), h + init, x);
      assert h + xs == (h + init) + [x];
    }
  }

  /** The database with its transactions: work is done on a copy of the tables, which
      the commit puts in their place; without a commit nothing has happened. */
  class ShareBatchPersistenceService {
    var tables: Tables

    constructor ()
      ensures tables == NO_ROWS
    {
      tables := NO_ROWS;
    }

    /** `statements` says after how many statements the connection or the process is
        lost, `reply` whether the answer to the commit, the last of them, arrives. Without a
        commit nothing has happened; with a commit all has, whether or not the caller learns
        of it. */
    method PersistAsync(events: seq<ShareEvent>, now: int, statements: nat, reply: bool) returns (outcome: Outcome)
      modifies this
      ensures tables == if outcome.RolledBack? then old(tables) else InsertAll(old(tables), Stamp(events, now))
      ensures outcome.Committed? ==> reply
      ensures outcome.ReplyLost? ==> !reply
      ensures statements > 4 * |events| ==> outcome == if reply then Committed else ReplyLost
    {
      var tx, left := tables, statements;
      ghost var xs := Stamp(events, now);
      for k := 0 to |events|
        invariant tables == old(tables)
        invariant tx == InsertAll(old(tables), xs[..k])
        invariant left + 4 * k >= statements
      {
        var e := events[k];
        assert xs[..k + 1][..k] == xs[..k];
        if left == 0 { return RolledBack; }
        left := left - 1;
        var inserted := e.eventId !in tx.processed;
        if !inserted {
          continue;
        }
        tx := tx.(processed := tx.processed + {e.eventId});
        if left == 0 { return RolledBack; }
        left := left - 1;
        if !(exists i :: 0 <= i < |tx.shareEvents| && tx.shareEvents[i].eventId == e.eventId) {
          tx := tx.(shareEvents := tx.shareEvents + [e]);
        }
        if IsPersistibleShare(e) {
          if left == 0 { return RolledBack; }
          left := left - 1;
          tx := tx.(shares := tx.shares + [MapShare(e, now)]);
        }
        if e.eventType == BlockCandidate {
          if left == 0 { return RolledBack; }
          left := left - 1;
          tx := tx.(blocks := tx.blocks + [MapPendingBlock(e)]);
        }
      }
      if left == 0 { return RolledBack; }
      tables := tx;
      assert xs[..|events|] == xs;
      outcome := if reply then Committed else ReplyLost;
    }
  }

  // ---------- Every run of the consumer group ----------

  /** The stream, what the group has handed out and what was acknowledged, and the
      tables; as history the entries and events whose transactions were committed.
      A consumer's crash changes none of these. */
  datatype Sys = Sys(
    stream: seq<seq<ShareEvent>>,
    next: nat,
    pending: set<nat>,
    acknowledged: set<nat>,
    tables: Tables,
    committed: set<nat>,
    history: seq<Stamped>)

  const START := Sys([], 0, {}, {}, NO_ROWS, {}, [])

  datatype Step =
    | Publish(events: seq<ShareEvent>)
    | Deliver(count: nat)             // new entries become pending with some consumer
    | Commit(entry: nat, now: int)    // a transaction for a delivered entry, again or not
    | Acknowledge(entry: nat)         // only after a commit for that entry

  predicate Enabled(s: Sys, step: Step) {
    match step
    case Publish(_) => true
    case Deliver(count) => s.next + count <= |s.stream|
    case Commit(k, _) => k < s.next && k < |s.stream|
    case Acknowledge(k) => k in s.committed
  }

  function Next(s: Sys, step: Step): Sys
    requires Enabled(s, step)
  {
    match step
    case Publish(events) => s.(stream := s.stream + [events])
    case Deliver(count) => s.(next := s.next + count, pending := s.pending + Range(s.next, s.next + count))
    case Commit(k, now) =>
      var xs := Stamp(s.stream[k], now);
      s.(tables := InsertAll(s.tables, xs), committed := s.committed + {k}, history := s.history + xs)
    case Acknowledge(k) => s.(pending := s.pending - {k}, acknowledged := s.acknowledged + {k})
  }

  ghost predicate IsRun(s: Sys, steps: seq<Step>)
    decreases |steps|
  {
    steps == [] || (Enabled(s, steps[0]) && IsRun(Next(s, steps[0]), steps[1..]))
  }

  ghost function Exec(s: Sys, steps: seq<Step>): Sys
    requires IsRun(s, steps)
    decreases |steps|
  {
    if steps == [] then s else Exec(Next(s, steps[0]), steps[1..])
  }

  /** Everything in the history came from a committed entry, and every event of a
      committed entry is in the history. */
  ghost predicate HistoryIsCommitted(s: Sys) {
    && (forall k | k in s.committed :: k < s.next)
    && (forall k, i | k in s.committed && k < |s.stream| && 0 <= i < |s.stream[k]| :: InHistory(s.history, s.stream[k][i]))
    && (forall i | 0 <= i < |s.history| :: FromCommitted(s, s.history[i].event))
  }

  ghost predicate InHistory(h: seq<Stamped>, e: ShareEvent) {
    exists i :: 0 <= i < |h| && h[i].event == e
  }

  ghost predicate FromCommitted(s: Sys, e: ShareEvent) {
    exists k :: k in s.committed && k < |s.stream| && e in s.stream[k]
  }

  ghost predicate Inv(s: Sys) {
    && s.next <= |s.stream|
    && OneRowEach(s.tables, s.history)
    && HistoryIsCommitted(s)
    && s.acknowledged <= s.committed
    && (forall k | 0 <= k < s.next :: k in s.pending || k in s.acknowledged)
  }

  lemma StartInv()
    ensures Inv(START)
  {
  }

  lemma CommitInv(s: Sys, k: nat, now: int)
    requires Inv(s) && Enabled(s, Commit(k, now))
    ensures Inv(Next(s, Commit(k, now)))
  {
    hide OneRowEach, InsertAll;
    var t, xs := Next(s, Commit(k, now)), Stamp(s.stream[k], now);
    InsertAllRows(s.tables, s.history, xs);
    var n := |s.history|;
    forall j, i | j in t.committed && j < |t.stream| && 0 <= i < |t.stream[j]| ensures InHistory(t.history, t.stream[j][i]) {
      if j == k {
        assert t.history[n + i].event == t.stream[j][i];
      } else {
        var m :| 0 <= m < n && s.history[m].event == s.stream[j][i];
        assert t.history[m].event == t.stream[j][i];
      }
    }
    forall i | 0 <= i < |t.history| ensures FromCommitted(t, t.history[i].event) {
      if i < n {
        assert FromCommitted(s, s.history[i].event);
        var j :| j in s.committed && j < |s.stream| && s.history[i].event in s.stream[j];
        assert j in t.committed && t.history[i].event in t.stream[j];
      } else {
        assert k in t.committed && t.history[i].event == s.stream[k][i - n];
      }
    }
  }

  lemma StepInv(s: Sys, step: Step)
    requires Inv(s) && Enabled(s, step)
    ensures Inv(Next(s, step))
  {
    match step
    case Commit(k, now) =>
      CommitInv(s, k, now);
    case Publish(events) =>
      hide OneRowEach, InsertAll;
      var t := Next(s, step);
      forall i | 0 <= i < |t.history| ensures FromCommitted(t, t.history[i].event) {
        assert FromCommitted(s, s.history[i].event);
        var j :| j in s.committed && j < |s.stream| && s.history[i].event in s.stream[j];
        assert t.stream[j] == s.stream[j];
      }
    case Deliver(count) =>
      hide OneRowEach, InsertAll;
      var t := Next(s, step);
      forall i | 0 <= i < |t.history| ensures FromCommitted(t, t.history[i].event) {
        assert FromCommitted(s, s.history[i].event);
      }
    case Acknowledge(k) =>
      hide OneRowEach, InsertAll;
      var t := Next(s, step);
      forall i | 0 <= i < |t.history| ensures FromCommitted(t, t.history[i].event) {
        assert FromCommitted(s, s.history[i].event);
      }
  }

  lemma {:induction false} RunInv(s: Sys, steps: seq<Step>)
    requires Inv(s) && IsRun(s, steps)
    ensures Inv(Exec(s, steps))
    decreases |steps|
  {
    hide Inv, Next, Enabled;
    if steps != [] {
      StepInv(s, steps[0]);
      RunInv(Next(s, steps[0]), steps[1..]);
    }
  }

  /** An event id names one event, however often it is delivered. */
  ghost predicate ConsistentIds(stream: seq<seq<ShareEvent>>) {
    forall j, k, e, f | 0 <= j < |stream| && 0 <= k < |stream| && e in stream[j] && f in stream[k] ::
      e.eventId == f.eventId ==> e == f
  }

  /** Exactly-once accounting, by a list of `firsts` with one entry for each id. */
  ghost predicate ExactlyOnce(s: Sys, firsts: seq<Stamped>) {
    && UniqueIds(firsts)
    && s.tables.processed == Ids(firsts)
    && s.tables.shareEvents == EventRows(firsts)
    && s.tables.shares == ShareRows(firsts)
    && s.tables.blocks == BlockRows(firsts)
    // a share for every event of these types, and a block for every candidate
    && (var xs := OfTypes(firsts, {ShareAccepted, BlockCandidate, BlockAccepted});
        |s.tables.shares| == |xs| && forall k | 0 <= k < |xs| :: IsShareRow(s.tables.shares[k], xs[k]))
    && (var xs := OfTypes(firsts, {BlockCandidate});
        |s.tables.blocks| == |xs| && forall k | 0 <= k < |xs| :: IsBlockRow(s.tables.blocks[k], xs[k].event))
    // nothing that was not committed has rows
    && (forall i | 0 <= i < |firsts| :: FromCommitted(s, firsts[i].event))
    // acknowledged implies persisted
    && (forall k, i | k in s.acknowledged && k < |s.stream| && 0 <= i < |s.stream[k]| ::
          s.stream[k][i].eventId in s.tables.processed)
    // and, when ids are consistent, persisted as that very event
    && (ConsistentIds(s.stream) ==>
          forall k, i | k in s.acknowledged && k < |s.stream| && 0 <= i < |s.stream[k]| :: InHistory(firsts, s.stream[k][i]))
  }

  /** For every sequence of publications, deliveries, redeliveries, repeated and
      rolled-back transactions and acknowledgements, in any interleaving of consumers. */
  lemma ExactlyOnceOverEveryRun(steps: seq<Step>)
    requires IsRun(START, steps)
    ensures ExactlyOnce(Exec(START, steps), FirstById(Exec(START, steps).history))
  {
    hide Inv, ExactlyOnce, IsRun, Exec;
    StartInv();
    RunInv(START, steps);
    InvAccounts(Exec(START, steps));
  }

  lemma InvAccounts(s: Sys)
    requires Inv(s)
    ensures ExactlyOnce(s, FirstById(s.history))
  {
    hide FirstById, EventRows, ShareRows, BlockRows, ConsistentIds, Ids, UniqueIds, OfTypes, IsShareRow, IsBlockRow;
    var h := s.history;
    var firsts := FirstById(h);
    FirstsAreUnique(h);
    RowsAre(firsts);
    forall i | 0 <= i < |firsts| ensures FromCommitted(s, firsts[i].event) {
      assert firsts[i] in h;
      var m :| 0 <= m < |h| && h[m] == firsts[i];
      assert FromCommitted(s, h[m].event);
    }
    forall k, i | k in s.acknowledged && k < |s.stream| && 0 <= i < |s.stream[k]|
      ensures s.stream[k][i].eventId in s.tables.processed
      ensures ConsistentIds(s.stream) ==> InHistory(firsts, s.stream[k][i])
    {
      AcknowledgedHasFirst(s, firsts, k, i);
    }
  }

  lemma AcknowledgedHasFirst(s: Sys, firsts: seq<Stamped>, k: nat, i: nat)
    requires HistoryIsCommitted(s) && s.acknowledged <= s.committed
    requires k in s.acknowledged && k < |s.stream| && i < |s.stream[k]|
    requires Ids(firsts) == Ids(s.history)
    requires forall j | 0 <= j < |firsts| :: FromCommitted(s, firsts[j].event)
    ensures s.stream[k][i].eventId in Ids(s.history)
    ensures ConsistentIds(s.stream) ==> InHistory(firsts, s.stream[k][i])
  {
    hide FromCommitted, ConsistentIds, Ids;
    var h, e := s.history, s.stream[k][i];
    assert k in s.committed;
    assert InHistory(h, e);
    HasId(h, e);
    var f := WithId(firsts, e.eventId);
    if ConsistentIds(s.stream) {
      assert FromCommitted(s, firsts[f].event);
      SameEvent(s, firsts[f].event, k, i);
    }
  }

  lemma HasId(h: seq<Stamped>, e: ShareEvent)
    requires InHistory(h, e)
    ensures e.eventId in Ids(h)
  {
  }

  lemma WithId(h: seq<Stamped>, id: string) returns (f: nat)
    requires id in Ids(h)
    ensures f < |h| && h[f].event.eventId == id
  {
    f :| 0 <= f < |h| && h[f].event.eventId == id;
  }

  lemma SameEvent(s: Sys, e: ShareEvent, k: nat, i: nat)
    requires ConsistentIds(s.stream) && FromCommitted(s, e) && k < |s.stream| && i < |s.stream[k]|
    requires e.eventId == s.stream[k][i].eventId
    ensures e == s.stream[k][i]
  {
    var j :| j in s.committed && j < |s.stream| && e in s.stream[j];
    assert s.stream[k][i] in s.stream[k];
  }

  lemma {:induction false} RunSnoc(s: Sys, steps: seq<Step>, step: Step)
    requires IsRun(s, steps) && Enabled(Exec(s, steps), step)
    ensures IsRun(s, steps + [step]) && Exec(s, steps + [step]) == Next(Exec(s, steps), step)
    decreases |steps|
  {
    hide Enabled, Next;
    if steps == [] {
      assert steps + [step] == [step] && [step][1..] == [];
    } else {
      assert (steps + [step])[1..] == steps[1..] + [step];
      RunSnoc(Next(s, steps[0]), steps[1..], step);
    }
  }

  /** The stream with the consumer group "db-writer". Entries are named by position; `owned` are
      the pending ones the broker has under this consumer's name. */
  class ConsumerGroup {
    var stream: seq<seq<ShareEvent>>
    var next: nat
    var pending: set<nat>
    var owned: set<nat>
    var acknowledged: set<nat>

    constructor ()
      ensures stream == [] && next == 0 && pending == {} && owned == {} && acknowledged == {}
    {
      stream, next, pending, owned, acknowledged := [], 0, {}, {}, {};
    }

    /** The group has given out what is pending, and what this consumer has is pending. */
    predicate Owns()
      reads this
    {
      next <= |stream| && owned <= pending && forall k | k in pending :: k < next
    }

    /** The pending entries the broker has for this consumer, the oldest first. */
    method ReadOwnPendingAsync(count: nat, ct: CancellationToken) returns (cancelled: bool, records: seq<nat>)
      requires Owns()
      modifies ct
      ensures (cancelled <==> old(ct.looks) == 0) && (cancelled ==> records == [])
      ensures ct.looks == if cancelled then 0 else old(ct.looks) - 1
      ensures |records| <= count && forall k | k in records :: k in owned
      ensures forall i, j | 0 <= i < j < |records| :: records[i] < records[j]
      ensures !cancelled ==> forall k | k in owned && k !in records :: |records| == count && forall j | j in records :: j < k
    {
      records := [];
      cancelled := ct.IsCancellationRequested();
      if cancelled { return; }
      for k := 0 to next
        invariant |records| <= count && forall j | j in records :: j in owned && j < k
        invariant forall i | 0 <= i < |records| :: records[i] < k
        invariant forall i, j | 0 <= i < j < |records| :: records[i] < records[j]
        invariant forall j | j in owned && j < k && j !in records :: |records| == count && forall r | r in records :: r < j
      {
        if k in owned && |records| < count {
          records := records + [k];
        }
      }
    }

    /** Those of other consumers that have been idle long enough; they become this one's. */
    method AutoClaimStalePendingAsync(count: nat, ct: CancellationToken) returns (cancelled: bool, records: seq<nat>)
      requires Owns()
      modifies `owned, ct
      ensures (cancelled <==> old(ct.looks) == 0) && (cancelled ==> records == [])
      ensures ct.looks == if cancelled then 0 else old(ct.looks) - 1
      ensures |records| <= count && forall k | k in records :: k in pending
      ensures forall i, j | 0 <= i < j < |records| :: records[i] != records[j]
      ensures Owns() && owned == old(owned) + set k | k in records
    {
      records := [];
      cancelled := ct.IsCancellationRequested();
      if cancelled { return; }
      records := *;
      if |records| > count || (exists k :: k in records && k !in pending)
         || exists i, j :: 0 <= i < j < |records| && records[i] == records[j] {
        records := [];
      }
      owned := owned + set k | k in records;
    }

    /** Entries nobody was given yet, in order; they become pending, and this one's. */
    method ReadNewAsync(count: nat, ct: CancellationToken) returns (cancelled: bool, records: seq<nat>)
      requires Owns()
      modifies `next, `pending, `owned, ct
      ensures cancelled <==> old(ct.looks) == 0
      ensures ct.looks == if cancelled then 0 else old(ct.looks) - 1
      ensures |records| == if cancelled then 0 else if old(next) + count <= |stream| then count else |stream| - old(next)
      ensures forall i | 0 <= i < |records| :: records[i] == old(next) + i
      ensures next == old(next) + |records| && pending == old(pending) + Range(old(next), next)
      ensures Owns() && owned == old(owned) + Range(old(next), next)
    {
      records := [];
      cancelled := ct.IsCancellationRequested();
      if cancelled { return; }
      var n := if next + count <= |stream| then count else |stream| - next;
      var first := next;
      records := seq(n, i requires 0 <= i < n => first + i);
      next, pending, owned := next + n, pending + Range(next, next + n), owned + Range(next, next + n);
    }

    /** Own pending entries first; claimed ones only when there are none; new entries only
        when there are no claimed ones either. `claimed` is the broker's answer. Three looks at
        the token suffice. */
    method ReadPendingFirstAsync(count: nat, ct: CancellationToken)
      returns (cancelled: bool, records: seq<nat>, ghost claimed: seq<nat>)
      requires Owns()
      modifies `next, `pending, `owned, ct
      ensures Owns()
      ensures cancelled ==> records == [] && ct.looks == 0 && next == old(next) && pending == old(pending) && owned == old(owned)
      ensures ct.looks <= old(ct.looks) <= ct.looks + 3 && (old(ct.looks) >= 3 ==> !cancelled)
      ensures |records| <= count && forall k | k in records :: k in owned
      ensures forall i, j | 0 <= i < j < |records| :: records[i] != records[j]
      ensures owned == old(owned) + set k | k in records
      ensures !cancelled && count > 0 && old(owned) != {} ==>
        && records != [] && next == old(next) && pending == old(pending)
        && (forall k | k in records :: k in old(owned))
        && (forall i, j | 0 <= i < j < |records| :: records[i] < records[j])
        && (forall k | k in old(owned) && k !in records :: |records| == count && forall j | j in records :: j < k)
      ensures !cancelled && (count == 0 || old(owned) == {}) && claimed != [] ==>
        records == claimed && next == old(next) && pending == old(pending)
      ensures !cancelled && (count == 0 || old(owned) == {}) && claimed == [] ==>
        && |records| == (if old(next) + count <= |stream| then count else |stream| - old(next))
        && (forall i | 0 <= i < |records| :: records[i] == old(next) + i)
        && next == old(next) + |records| && pending == old(pending) + Range(old(next), next)
    {
      hide Range;
      claimed := [];
      cancelled, records := ReadOwnPendingAsync(count, ct);
      if records != [] { assert records[0] in owned; }
      if cancelled || records != [] { return; }
      cancelled, records := AutoClaimStalePendingAsync(count, ct);
      claimed := records;
      if cancelled || records != [] { return; }
      ghost var first := next;
      cancelled, records := ReadNewAsync(count, ct);
      forall k | first <= k < next ensures k in records {
        assert records[k - first] == k;
      }
      assert (set k | k in records) == Range(first, next);
    }

    method AcknowledgeAsync(k: nat)
      modifies `pending, `owned, `acknowledged
      ensures pending == old(pending) - {k} && owned == old(owned) - {k} && acknowledged == old(acknowledged) + {k}
    {
      pending, owned, acknowledged := pending - {k}, owned - {k}, acknowledged + {k};
    }
  }

  /** `t` is `s` some steps later. */
  predicate Later(s: Sys, t: Sys) {
    s.stream <= t.stream && s.next <= t.next && s.committed <= t.committed && s.acknowledged <= t.acknowledged
  }

  lemma LaterStill(a: Sys, b: Sys, d: Sys)
    requires Later(a, b) && Later(b, d)
    ensures Later(a, d) && |a.stream| <= |b.stream| && |a.acknowledged| <= |b.acknowledged| <= |d.acknowledged|
  {
    LargerSet(a.acknowledged, b.acknowledged);
    LargerSet(b.acknowledged, d.acknowledged);
  }

  lemma Now(s: Sys)
    ensures Later(s, s)
  {
  }

  lemma {:induction false} LargerSet(s: set<nat>, t: set<nat>)
    requires s <= t
    ensures |s| <= |t| && (s != t ==> |s| < |t|)
    decreases |s|
  {
    if s != {} {
      var k :| k in s;
      LargerSet(s - {k}, t - {k});
      assert s == (s - {k}) + {k} && t == (t - {k}) + {k};
    }
  }

  lemma {:induction false} RangeSize(lo: nat, hi: nat)
    requires lo <= hi
    ensures |Range(lo, hi)| == hi - lo
    decreases hi - lo
  {
    if lo < hi {
      RangeSize(lo + 1, hi);
      assert lo !in Range(lo + 1, hi);
    }
  }

  class DbWriterService {
    const group: ConsumerGroup
    const persistence: ShareBatchPersistenceService
    /** Entries whose commit other consumers have learned of and may acknowledge. */
    var theirs: set<nat>
    /** How many entries will still be published. */
    var toCome: nat
    /** The run of the group so far, by all its consumers, and what this one acknowledged. */
    ghost var steps: seq<Step>
    ghost var sys: Sys
    ghost var mine: set<nat>

    ghost predicate Valid()
      reads this, group, persistence
    {
      && group.stream == sys.stream && group.next == sys.next
      && group.pending == sys.pending && group.acknowledged == sys.acknowledged
      && persistence.tables == sys.tables
      && IsRun(START, steps) && sys == Exec(START, steps) && Inv(sys)
      && (forall k | k in sys.pending :: k < sys.next && k !in sys.acknowledged)
      && group.owned <= group.pending && theirs <= sys.committed && mine <= sys.acknowledged
    }

    /** How many entries there will be. */
    ghost function Offered(): nat
      reads this, group
    {
      |group.stream| + toCome
    }

    /** How many entries are not acknowledged, those to come included. */
    ghost function Entries(): int
      reads this, group
    {
      Offered() - |group.acknowledged|
    }

    constructor (group: ConsumerGroup, persistence: ShareBatchPersistenceService, toCome: nat)
      requires group.stream == [] && group.next == 0 && group.pending == {} && group.owned == {} && group.acknowledged == {}
      requires persistence.tables == NO_ROWS
      ensures Valid() && this.group == group && this.persistence == persistence
    {
      hide Inv;
      StartInv();
      this.group, this.persistence, this.steps, this.sys := group, persistence, [], START;
      this.theirs, this.mine, this.toCome := {}, {}, toCome;
    }

    ghost method Note(step: Step)
      requires IsRun(START, steps) && sys == Exec(START, steps) && Inv(sys) && Enabled(sys, step)
      modifies `steps, `sys
      ensures IsRun(START, steps) && sys == Exec(START, steps) && Inv(sys)
      ensures sys == Next(old(sys), step)
    {
      hide Inv, Next, Enabled;
      StepInv(sys, step);
      RunSnoc(START, steps, step);
      steps, sys := steps + [step], Next(sys, step);
    }

    /** Publishers and other consumers of the group act between this one's awaits, as often as
        they like: entries are published, delivered to others, committed and, once a commit
        is known, acknowledged. */
    method OtherTasks()
      requires Valid()
      modifies this, group, persistence
      ensures Valid() && mine == old(mine)
      ensures Later(old(sys), sys) && Offered() == old(Offered()) && group.owned <= old(group.owned)
    {
      hide Valid;
      var actions: nat :| actions >= 0;
      for i := 0 to actions
        invariant Valid() && mine == old(mine)
        invariant Later(old(sys), sys) && Offered() == old(Offered()) && group.owned <= old(group.owned)
      {
        OtherTask();
      }
    }

    method OtherTask()
      requires Valid()
      modifies this, group, persistence
      ensures Valid() && mine == old(mine)
      ensures Later(old(sys), sys) && Offered() == old(Offered()) && group.owned <= old(group.owned)
    {
      hide *;
      var events: seq<ShareEvent>, k: nat, now: int, count: nat := *, *, *, *;
      Now(sys);
      if * {
        if toCome > 0 { Publishes(events); }
      } else if * {
        if k < group.next && k < |group.stream| { PersistsElsewhere(k, now); }
      } else if * {
        if k in theirs { Confirms(k); }
      } else if * {
        if group.next + count <= |group.stream| { Delivers(count); }
      } else {
        Claims(k);
      }
    }

    /** Another consumer claims an entry this one has had for too long. */
    method Claims(k: nat)
      requires Valid()
      modifies group
      ensures Valid() && mine == old(mine) && Later(old(sys), sys)
      ensures Offered() == old(Offered()) && group.owned <= old(group.owned)
    {
      hide Inv, IsRun, Exec, InsertAll;
      group.owned := group.owned - {k};
    }

    method Publishes(events: seq<ShareEvent>)
      requires Valid() && toCome > 0
      modifies this, group
      ensures Valid() && mine == old(mine) && Later(old(sys), sys)
      ensures Offered() == old(Offered()) && group.owned <= old(group.owned)
    {
      hide Inv, IsRun, Exec, InsertAll;
      group.stream, toCome := group.stream + [events], toCome - 1;
      Note(Publish(events));
    }

    method PersistsElsewhere(k: nat, now: int)
      requires Valid() && k < group.next && k < |group.stream|
      modifies this, persistence
      ensures Valid() && mine == old(mine) && Later(old(sys), sys)
      ensures Offered() == old(Offered()) && group.owned <= old(group.owned)
    {
      hide Inv, IsRun, Exec, InsertAll;
      var threw := PersistEntry(k, now);
      if !threw { theirs := theirs + {k}; }
    }

    method Confirms(k: nat)
      requires Valid() && k in theirs
      modifies this, group
      ensures Valid() && mine == old(mine) && Later(old(sys), sys)
      ensures Offered() == old(Offered()) && group.owned <= old(group.owned)
    {
      hide Inv, IsRun, Exec, InsertAll;
      group.AcknowledgeAsync(k);
      Note(Acknowledge(k));
    }

    method Delivers(count: nat)
      requires Valid() && group.next + count <= |group.stream|
      modifies this, group
      ensures Valid() && mine == old(mine) && Later(old(sys), sys)
      ensures Offered() == old(Offered()) && group.owned <= old(group.owned)
    {
      hide Inv, IsRun, Exec, InsertAll;
      NotBeyond();
      group.pending, group.next := group.pending + Range(group.next, group.next + count), group.next + count;
      Note(Deliver(count));
    }

    /** One transaction for a delivered entry. When the caller is not told that it failed,
        the entry is committed; when it is told so, it may be committed all the same. */
    method PersistEntry(k: nat, now: int) returns (threw: bool)
      requires Valid() && k < group.next && k < |group.stream|
      modifies `steps, `sys, persistence
      ensures Valid() && sys.next == old(sys.next) && sys.acknowledged == old(sys.acknowledged)
      ensures sys.committed == old(sys.committed) || sys.committed == old(sys.committed) + {k}
      ensures sys.stream == old(sys.stream)
      ensures !threw ==> k in sys.committed
    {
      hide Inv, IsRun, Exec, InsertAll, Stamp;
      var statements: nat := *;
      var reply: bool := *;
      var outcome := persistence.PersistAsync(group.stream[k], now, statements, reply);
      if !outcome.RolledBack? {
        Note(Commit(k, now));
      }
      threw := !outcome.Committed?;
    }

    /** Persist, then acknowledge, one entry after the other. A transaction the caller is
        told has failed ends the service before the acknowledgement: of these entries it has
        acknowledged exactly the ones before, and these are committed. */
    method ProcessRecords(records: seq<nat>) returns (failed: bool, ghost done: nat)
      requires Valid() && forall k | k in records :: k < sys.next
      modifies this, group, persistence
      ensures Valid() && Later(old(sys), sys) && Offered() == old(Offered()) && group.owned <= old(group.owned)
      ensures done <= |records| && (failed <==> done < |records|)
      ensures forall k | k in records[..done] :: k in sys.committed && k in sys.acknowledged
      ensures mine == old(mine) + set k | k in records[..done]
    {
      hide Valid, Offered;
      done := 0;
      for r := 0 to |records|
        invariant Valid() && Later(old(sys), sys) && Offered() == old(Offered()) && group.owned <= old(group.owned)
        invariant done == r && forall k | k in records[..r] :: k in sys.committed && k in sys.acknowledged
        invariant mine == old(mine) + set k | k in records[..r]
      {
        var k := records[r];
        assert k in records;
        failed := ProcessRecord(k);
        if failed { return true, r; }
        assert records[..r + 1] == records[..r] + [k];
        done := done + 1;
      }
      failed := false;
    }

    method ProcessRecord(k: nat) returns (failed: bool)
      requires Valid() && k < sys.next
      modifies this, group, persistence
      ensures Valid() && Later(old(sys), sys) && Offered() == old(Offered()) && group.owned <= old(group.owned)
      ensures if failed then mine == old(mine) else mine == old(mine) + {k} && k in sys.committed && k in sys.acknowledged
    {
      hide Inv, IsRun, Exec, InsertAll;
      OtherTasks();
      NextInStream();
      var now: int := *;
      failed := PersistEntry(k, now);
      if failed { return; }
      OtherTasks();
      group.AcknowledgeAsync(k);
      Note(Acknowledge(k));
      mine := mine + {k};
    }

    /** One round of the loop. Unless a transaction is reported as failed, everything read is
        committed and acknowledged; and if there was nothing to read, the group has been
        given everything. It ends the loop only on a failure or a cancelled token. */
    method Round(readBatchSize: nat, ct: CancellationToken) returns (going: bool, failed: bool, ghost records: seq<nat>)
      requires Valid()
      modifies this, group, persistence, ct
      ensures Valid() && Later(old(sys), sys) && Entries() <= old(Entries())
      ensures !going ==> failed || ct.looks == 0
      ensures going ==> !failed
      ensures ct.looks <= old(ct.looks) <= ct.looks + 4
      ensures !failed ==> mine == old(mine) + set k | k in records
      ensures !failed ==> forall k | k in records :: k in sys.committed && k in sys.acknowledged
      ensures !failed ==> group.owned <= old(group.owned)
      ensures going && records == [] && readBatchSize > 0 ==> sys.next >= |old(sys.stream)| && group.owned == {}
      ensures going && records != [] ==> Entries() < old(Entries())
    {
      hide *;
      EntriesAre();
      OtherTasks();
      ghost var start, left := sys, group.owned;
      failed, records := false, [];
      var cancelled, read;
      cancelled, read := ReadRecords(readBatchSize, ct);
      records := read;
      LaterStill(old(sys), start, sys);
      EntriesAre();
      if cancelled { return false, false, records; }
      if read == [] {
        cancelled := ct.IsCancellationRequested();  // the idle delay
        return !cancelled, false, records;
      }
      assert read[0] in read;
      ghost var before, done := sys, 0;
      failed, done := ProcessRecords(read);
      LaterStill(old(sys), before, sys);
      EntriesAre();
      going := !failed;
      if going {
        assert read[..|read|] == read;
        Fewer(before, sys, read[0]);
        NoneKept(left, read);
      }
    }

    lemma EntriesAre()
      requires Valid()
      ensures Entries() == Offered() - |sys.acknowledged|
    {
      hide Inv, IsRun, Exec, InsertAll;
    }

    /** What is acknowledged is no longer pending. */
    lemma NoneKept(left: set<nat>, read: seq<nat>)
      requires Valid() && group.owned <= left + set k | k in read
      requires forall k | k in read :: k in sys.acknowledged
      ensures group.owned <= left
    {
      hide Inv, IsRun, Exec, InsertAll;
    }

    /** The records of a round. */
    method ReadRecords(readBatchSize: nat, ct: CancellationToken) returns (cancelled: bool, records: seq<nat>)
      requires Valid()
      modifies `steps, `sys, group, ct
      ensures Valid() && Later(old(sys), sys) && Offered() == old(Offered())
      ensures sys.acknowledged == old(sys.acknowledged)
      ensures cancelled ==> records == [] && ct.looks == 0
      ensures ct.looks <= old(ct.looks) <= ct.looks + 3
      ensures forall k | k in records :: k < sys.next && k !in sys.acknowledged
      ensures group.owned == old(group.owned) + set k | k in records
      ensures !cancelled && records == [] && readBatchSize > 0 ==> sys.next == |old(sys.stream)| && group.owned == {}
    {
      hide Inv, IsRun, Exec, InsertAll, Range;
      NextInStream();
      NotBeyond();
      ghost var next := group.next;
      ghost var claimed;
      cancelled, records, claimed := group.ReadPendingFirstAsync(readBatchSize, ct);
      ReadIsNoted(next, records);
    }

    lemma Fewer(before: Sys, after: Sys, k: nat)
      requires Later(before, after) && k !in before.acknowledged && k in after.acknowledged
      ensures |before.acknowledged| < |after.acknowledged|
    {
      LargerSet(before.acknowledged, after.acknowledged);
    }

    /** The service's loop. It ends only when a transaction is reported as failed or the token
        is cancelled. Until then everything it read is committed and acknowledged; and if the
        token lives long enough, by a number known at the start, all that was on the stream then
        has been handed out, and nothing is left pending under this consumer's name. */
    method ExecuteAsync(readBatchSize: nat, ct: CancellationToken) returns (failed: bool, ghost read: set<nat>)
      requires Valid()
      modifies this, group, persistence, ct
      ensures Valid() && Later(old(sys), sys)
      ensures ExactlyOnce(sys, FirstById(sys.history))
      ensures !failed ==> ct.looks == 0
      ensures !failed ==> mine == old(mine) + read && read <= sys.committed && read <= sys.acknowledged
      ensures !failed && readBatchSize > 0 && old(ct.looks) > 5 * old(Entries()) + 5 ==>
        sys.next >= |old(sys.stream)| && group.owned == {}
    {
      hide *;
      failed, read := false, {};
      ghost var goal := |sys.stream|;
      Now(sys);
      EntriesLeft();
      while true
        invariant Valid() && Later(old(sys), sys) && 0 <= Entries() <= old(Entries()) && group.owned <= old(group.owned)
        invariant mine == old(mine) + read && read <= sys.committed && read <= sys.acknowledged
        invariant old(ct.looks) <= ct.looks + 5 * (old(Entries()) - Entries())
          || (readBatchSize > 0 ==> sys.next >= goal && group.owned == {})
        decreases ct.looks
      {
        var cancelled := ct.IsCancellationRequested();
        if cancelled { break; }
        ghost var before := sys;
        var going;
        ghost var records;
        going, failed, records := Round(readBatchSize, ct);
        LaterStill(old(sys), before, sys);
        if failed { break; }
        StillDone(before, read);
        read := read + set k | k in records;
        if !going { break; }
        EntriesLeft();
      }
      Accounts();
    }

    lemma StillDone(before: Sys, done: set<nat>)
      requires Later(before, sys) && done <= before.committed && done <= before.acknowledged
      ensures done <= sys.committed && done <= sys.acknowledged && before.next <= sys.next
    {
    }

    lemma Accounts()
      requires Valid()
      ensures ExactlyOnce(sys, FirstById(sys.history))
    {
      hide Inv, IsRun, Exec, ExactlyOnce, InsertAll;
      InvAccounts(sys);
    }

    lemma NextInStream()
      requires Valid()
      ensures sys.next <= |sys.stream|
    {
    }

    lemma NotBeyond()
      requires Valid()
      ensures forall k | k in sys.acknowledged || k in sys.committed :: k < sys.next
    {
    }

    /** No more is acknowledged than was published. */
    lemma EntriesLeft()
      requires Valid()
      ensures Entries() >= 0
    {
      hide IsRun, Exec, InsertAll;
      NotBeyond();
      NextInStream();
      LargerSet(group.acknowledged, Range(0, group.next));
      RangeSize(0, group.next);
    }

    ghost method ReadIsNoted(before: nat, records: seq<nat>)
      requires IsRun(START, steps) && sys == Exec(START, steps) && Inv(sys)
      requires group.stream == sys.stream && group.acknowledged == sys.acknowledged && persistence.tables == sys.tables
      requires before == sys.next <= group.next <= |group.stream|
      requires group.pending == sys.pending + Range(sys.next, group.next)
      requires forall k | k in sys.pending :: k < sys.next && k !in sys.acknowledged
      requires forall k | k in sys.acknowledged :: k < sys.next
      requires theirs <= sys.committed && mine <= sys.acknowledged && group.owned <= group.pending
      modifies `steps, `sys
      requires forall k | k in records :: k in group.pending
      ensures Valid() && sys == old(sys).(next := group.next, pending := group.pending)
      ensures forall k | k in records :: k < sys.next && k !in sys.acknowledged
    {
      hide Inv, IsRun, Exec, InsertAll;
      Note(Deliver(group.next - before));
    }
  }
}
