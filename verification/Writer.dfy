/** ShareEventOutboxWriter: from the in-memory queue to the WAL, and what shutdown
    makes of the events caught between the two. */
module Writer {
  import opened Contracts
  import opened Cancellation
  import opened Dedup
  import opened Framing
  import opened SegmentNames
  import opened Reader
  import opened Log
  import opened Outbox
  import opened Attempts

  datatype HandoffOptions = HandoffOptions(
    softMaxBufferedEvents: int,
    softMaxBufferedBytes: int,
    criticalBufferedEvents: int,
    criticalBufferedBytes: int)

  /** The hand-off queue as its single reader sees it. `coming` are the events the
      producers will still offer; at any await any number of them arrives. */
  class HandoffQueue {
    var items: seq<ShareEvent>
    var coming: seq<ShareEvent>
    /** The counters; with operations in flight they may be ahead of the items or behind. */
    var count: int
    var approximateBytes: int
    const options: HandoffOptions
    /** Everything dequeued so far, in order. */
    ghost var taken: seq<ShareEvent>
    /** How many of these were taken without waiting, by a drain. */
    ghost var drained: nat

    constructor (coming: seq<ShareEvent>, options: HandoffOptions)
      ensures items == [] && taken == [] && this.coming == coming && Offered() == coming
      ensures this.options == options
    {
      items, taken, drained, this.coming, this.options, count, approximateBytes := [], [], 0, coming, options, 0, 0;
    }

    ghost function Offered(): seq<ShareEvent>
      reads this
    {
      taken + items + coming
    }

    /** How many events somebody waited for and got. */
    ghost function Awaited(): int
      reads this
    {
      |taken| - drained
    }

    predicate IsAboveSoftThreshold()
      reads this
    {
      count >= options.softMaxBufferedEvents || approximateBytes >= options.softMaxBufferedBytes
    }

    predicate IsAboveCriticalThreshold()
      reads this
    {
      count >= options.criticalBufferedEvents || approximateBytes >= options.criticalBufferedBytes
    }

    method Arrivals()
      modifies `items, `coming, `count, `approximateBytes
      ensures Offered() == old(Offered())
      ensures |items| + |coming| == |old(items)| + |old(coming)| && |coming| <= |old(coming)|
    {
      var n: nat :| n <= |coming|;
      assert (items + coming[..n]) + coming[n..] == items + coming;
      assert taken + (items + coming[..n]) + coming[n..] == taken + items + coming;
      items, coming := items + coming[..n], coming[n..];
      count, approximateBytes := *, *;
    }

    method TakeFirst() returns (e: ShareEvent)
      requires items != []
      modifies `items, `taken
      ensures items == old(items)[1..] && taken == old(taken) + [e]
      ensures Offered() == old(Offered())
    {
      e := items[0];
      assert taken + items == (taken + [items[0]]) + items[1..];
      items, taken := items[1..], taken + [e];
    }

    /** Waiting for an event ends with one, or with the cancellation of a token that is
        linked to the stopping token or to a timer. */
    method DequeueAsync(ct: CancellationToken, timed: bool) returns (r: Option<ShareEvent>)
      modifies this, ct
      ensures Offered() == old(Offered())
      ensures ct.looks <= old(ct.looks)
      ensures taken == match r { case None => old(taken) case Some(e) => old(taken) + [e] }
      ensures r == None && !timed ==> ct.looks == 0 && (old(ct.looks) == 0 || old(items) == [])
      ensures r.Some? || timed ==> old(ct.looks) <= ct.looks + 1
      ensures drained == old(drained) && |coming| <= |old(coming)|
    {
      Arrivals();
      var timeout: bool := *;
      if timed && timeout {
        return None;
      }
      var cancelled := ct.IsCancellationRequested();
      if cancelled {
        return None;
      }
      if items == [] {
        if !timed { ct.looks := 0; }  // nothing arrives before the token is cancelled
        return None;
      }
      var e := TakeFirst();
      r := Some(e);
    }

    method TryDequeue() returns (r: Option<ShareEvent>)
      modifies this
      ensures Offered() == old(Offered()) && Awaited() == old(Awaited())
      ensures |items| + |coming| == |old(items)| + |old(coming)| - (if r.Some? then 1 else 0)
      ensures taken == match r { case None => old(taken) case Some(e) => old(taken) + [e] }
      ensures r == None ==> items == []
      ensures |coming| <= |old(coming)|
    {
      Arrivals();
      if items == [] {
        return None;
      }
      var e := TakeFirst();
      drained := drained + 1;
      r := Some(e);
    }
  }

  /** How often an append looks at its token. */
  function Needed(events: seq<ShareEvent>, flushToDisk: bool): (n: nat) {
    4 * |events| + (if flushToDisk then 1 else 2)
  }

  class ShareEventOutboxWriter {
    const queue: HandoffQueue
    const outbox: FileShareEventOutbox
    const writerFlushEvents: int
    const writerFlushBytes: int
    const jsonLength: ShareEvent -> nat
    /** How long the shutdown tokens live, one after the other, and how many there were. */
    const timeouts: nat -> nat
    var timers: nat
    var shutdownDrainCompleted: bool

    /** The segments and the events taken from the queue when the writer started; its
        appends since then; the events whose batch was given up when a shutdown token ran
        out; whether a drain overtook a batch in hand. Events are named by their place among
        those taken since the start. */
    ghost const started: seq<Chunk>
    ghost const given: seq<ShareEvent>
    ghost var tries: seq<Try>
    ghost var dropped: set<nat>
    ghost var overtaken: bool

    /** No shutdown token is cancelled before so many events are appended. */
    ghost predicate Patient(events: nat) {
      forall i: nat :: timeouts(i) >= 4 * events + 2
    }

    /** The events taken since the start. */
    ghost function Log(): seq<ShareEvent>
      reads queue
    {
      if |given| <= |queue.taken| then queue.taken[|given|..] else []
    }

    /** The segments are what the appends made of those at the start. */
    ghost predicate Told()
      reads `tries, queue, outbox, outbox.directory
    {
      && outbox.Consistent() && Lawful(outbox.codec) && outbox.Stands()
      && given <= queue.taken && AllTaken(Log(), tries)
      && |started| > 0 && Sound(outbox.codec, started)
      && outbox.chunks == AfterAll(outbox.codec, outbox.segmentMaxBytes, started, tries)
    }

    /** With some events in hand: all others were appended whole, or tried and given up. As
        long as no batch was given up or overtaken, the appends follow one another, and
        everything before `next` was appended whole. */
    ghost predicate Conserves(hand: set<nat>, next: nat)
      reads `tries, `dropped, `overtaken, queue, outbox, outbox.directory
    {
      && Told()
      && Accounts(tries, dropped, |Log()|, hand)
      && (dropped == {} && !overtaken ==> Following(tries) && next <= End(tries))
    }

    /** The events are such as the mapper makes, and there are numbers left for a segment
        for each append of an event: three for each event to come, and the ones owed. */
    ghost predicate Roomy(owed: nat)
      reads queue, outbox
    {
      && (forall e | e in queue.Offered() :: Accepted(outbox.codec, e))
      && outbox.currentSegmentIndex + 3 * (|queue.items| + |queue.coming|) + owed < LONG_LIMIT
    }

    constructor (queue: HandoffQueue, outbox: FileShareEventOutbox, writerFlushEvents: int, writerFlushBytes: int,
                 jsonLength: ShareEvent -> nat, timeouts: nat -> nat)
      requires outbox.Valid()
      ensures Conserves({}, 0) && !shutdownDrainCompleted && dropped == {} && !overtaken && tries == [] && Log() == []
      ensures this.queue == queue && this.outbox == outbox && this.timeouts == timeouts
      ensures started == outbox.chunks && given == queue.taken
    {
      hide Holds, Lawful, Sound, StandsAt;
      this.queue, this.outbox, this.jsonLength := queue, outbox, jsonLength;
      this.writerFlushEvents, this.writerFlushBytes := writerFlushEvents, writerFlushBytes;
      this.timeouts, timers, shutdownDrainCompleted, overtaken := timeouts, 0, false, false;
      started, given, tries, dropped := outbox.chunks, queue.taken, [], {};
      new;
      NotEmpty();
    }

    lemma NotEmpty()
      requires outbox.Consistent()
      ensures |outbox.chunks| > 0 && Ascending(outbox.chunks)
      ensures outbox.currentSegmentIndex == outbox.chunks[|outbox.chunks| - 1].index
    {
    }

    /** The batch is the events from `lo` on. */
    ghost predicate Batch(lo: nat, batch: seq<ShareEvent>)
      reads queue
    {
      lo + |batch| <= |Log()| && Log()[lo..lo + |batch|] == batch
    }

    lemma AcceptedBatch(lo: nat, batch: seq<ShareEvent>)
      requires Batch(lo, batch) && forall e | e in queue.Offered() :: Accepted(outbox.codec, e)
      ensures LeadingValid(outbox.codec, batch) == |batch|
    {
      hide Accepted, LeadingValid;
      forall i | 0 <= i < |batch| ensures Accepted(outbox.codec, batch[i]) {
        assert batch[i] == Log()[lo..lo + |batch|][i] == Log()[lo + i] == queue.taken[|given| + lo + i];
        assert batch[i] in queue.taken && batch[i] in queue.Offered();
      }
    }

    // ---------- Appending a batch ----------

    /** One append of a batch under any token; `rest` is owed besides. */
    method FlushBatchAsync(ghost lo: nat, batch: seq<ShareEvent>, flushToDisk: bool, ct: CancellationToken, ghost rest: nat)
      returns (cancelled: bool)
      requires Told() && Batch(lo, batch) && Roomy(rest + |batch|)
      modifies outbox, outbox.directory`segments, ct, `tries
      ensures Told() && Batch(lo, batch) && Roomy(rest)
      ensures ct.looks <= old(ct.looks) && (cancelled ==> ct.looks == 0)
      ensures cancelled <==> |batch| > 0 && old(ct.looks) < Needed(batch, flushToDisk)
      ensures old(ct.looks) <= ct.looks + 4 * |batch| + 2
      ensures tries == if |batch| == 0 then old(tries) else old(tries) + [Try(lo, batch, old(ct.looks))]
      ensures !cancelled && |batch| > 0 ==> Whole(tries[|tries| - 1])
    {
      hide Holds, StandsAt, Lawful, Sound, LeadingValid, AllGrown, Extends, Accepted, Content, Ascending, Appending, AllTaken;
      if |batch| == 0 {
        return false;
      }
      AcceptedBatch(lo, batch);
      NotEmpty();
      ghost var t := Try(lo, batch, ct.looks);
      AppendingIndex(outbox.codec, outbox.segmentMaxBytes, outbox.chunks, batch, ct.looks);
      TakenMore(Log(), tries, t);
      var outcome := outbox.AppendAsync(batch, flushToDisk, ct);
      cancelled := outcome == Cancelled;
      NotEmpty();
      AfterMore(t);
      tries := tries + [t];
    }

    lemma TakenMore(log: seq<ShareEvent>, tries: seq<Try>, t: Try)
      requires AllTaken(log, tries) && TakenFrom(log, t)
      ensures AllTaken(log, tries + [t])
    {
    }

    lemma AfterMore(t: Try)
      requires |started| > 0
      ensures AfterAll(outbox.codec, outbox.segmentMaxBytes, started, tries + [t])
        == Appending(outbox.codec, outbox.segmentMaxBytes,
                     AfterAll(outbox.codec, outbox.segmentMaxBytes, started, tries), t.batch, t.looks)
    {
      hide Appending;
      assert (tries + [t])[..|tries|] == tries;
    }

    /** What one more append of the batch in hand does to the account. */
    lemma AppendAccounts(before: seq<Try>, t: Try, hand: set<nat>)
      requires tries == before + [t] && Told()
      requires Accounts(before, dropped, |Log()|, hand + Range(t.from, t.from + |t.batch|))
      requires dropped == {} && !overtaken ==> Following(before) && t.from <= End(before)
      ensures Conserves(hand + Range(t.from, t.from + |t.batch|), t.from)
      ensures Whole(t) ==> Conserves(hand, t.from + |t.batch|)
      ensures forall p | t.from <= p < t.from + |t.batch| :: Tried(tries, p)
    {
      hide Told, Tried, Done, Accounts, Following, End, Range, Whole;
      AccountsMore(before, dropped, |Log()|, hand, t);
      if dropped == {} && !overtaken { FollowingMore(before, t); }
      assert forall p | t.from <= p < t.from + |t.batch| :: Has(t, p);
    }

    /** A batch caught by the shutdown is appended again, all of it, under a token of its own,
        which may run out at any moment; then the caller is told. */
    method FlushDequeuedBatchDuringShutdownAsync(ghost lo: nat, batch: seq<ShareEvent>, flushToDisk: bool,
                                                 ghost hand: set<nat>, ghost rest: nat) returns (threw: bool)
      requires |batch| > 0 && Batch(lo, batch) && Roomy(rest + |batch|)
      requires Conserves(hand + Range(lo, lo + |batch|), lo)
      modifies outbox, outbox.directory`segments, `tries, `timers
      ensures Batch(lo, batch) && Roomy(rest)
      ensures threw <==> timeouts(old(timers)) < 4 * |batch| + if flushToDisk then 1 else 2
      ensures timers == old(timers) + 1 && (Patient(|queue.Offered()|) ==> !threw)
      ensures Conserves(hand + Range(lo, lo + |batch|), lo)
      ensures !threw ==> Conserves(hand, lo + |batch|)
      ensures forall p | lo <= p < lo + |batch| :: Tried(tries, p)
    {
      hide Told, Tried, Accounts, Following, End, Range, Accepted, LeadingValid, Whole;
      var shutdownToken := new CancellationToken(timeouts(timers));
      timers := timers + 1;
      ghost var before := tries;
      StandsTold(hand + Range(lo, lo + |batch|), lo);
      threw := FlushBatchAsync(lo, batch, flushToDisk, shutdownToken, rest);
      AppendAccounts(before, tries[|tries| - 1], hand);
    }

    lemma StandsTold(hand: set<nat>, next: nat)
      requires Conserves(hand, next)
      ensures Told() && Accounts(tries, dropped, |Log()|, hand)
      ensures dropped == {} && !overtaken ==> Following(tries) && next <= End(tries)
    {
    }

    /** The batch in hand is given up. */
    ghost method GiveUp(lo: nat, batch: seq<ShareEvent>, hand: set<nat>)
      requires |batch| > 0 && Conserves(hand + Range(lo, lo + |batch|), lo)
      requires forall p | lo <= p < lo + |batch| :: Tried(tries, p)
      modifies `dropped
      ensures forall next :: Conserves(hand, next)
      ensures dropped == old(dropped) + Range(lo, lo + |batch|) && dropped != {}
    {
      hide Tried, Following, End;
      AccountsDrop(tries, dropped, |Log()|, hand, Range(lo, lo + |batch|));
      assert lo in Range(lo, lo + |batch|);
      dropped := dropped + Range(lo, lo + |batch|);
    }

    /** An event more for a batch. */
    lemma TakeAccounts(taken: seq<ShareEvent>, lo: nat, batch: seq<ShareEvent>, hand: set<nat>, e: ShareEvent)
      requires given <= taken && queue.taken == taken + [e]
      requires
        var log := taken[|given|..];
        && outbox.Consistent() && Lawful(outbox.codec) && outbox.Stands()
        && AllTaken(log, tries) && |started| > 0 && Sound(outbox.codec, started)
        && outbox.chunks == AfterAll(outbox.codec, outbox.segmentMaxBytes, started, tries)
        && Accounts(tries, dropped, |log|, hand + Range(lo, lo + |batch|))
        && (dropped == {} && !overtaken ==> Following(tries) && lo <= End(tries))
        && lo + |batch| == |log| && log[lo..] == batch
      ensures Conserves(hand + Range(lo, lo + |batch| + 1), lo) && Batch(lo, batch + [e])
      ensures Log() == taken[|given|..] + [e]
    {
      hide Tried, Done, Following, End, Lawful, Holds, StandsAt, Sound, AfterAll;
      var log := taken[|given|..];
      assert queue.taken[|given|..] == log + [e];
      assert (log + [e])[lo..] == batch + [e] && (log + [e])[lo..|log| + 1] == (log + [e])[lo..];
      forall i | 0 <= i < |tries| ensures TakenFrom(log + [e], tries[i]) {
        var t := tries[i];
        assert TakenFrom(log, t);
        assert (log + [e])[t.from..t.from + |t.batch|] == log[t.from..t.from + |t.batch|];
      }
    }

    // ---------- The drain ----------

    /** The drain at shutdown, perhaps with a batch in the hands of another task: everything
        still queued, in batches, until the queue is found empty or a shutdown token runs
        out, which gives up the batch and ends the drain. */
    method DrainRemainingQueueDuringShutdownAsync(ghost hand: set<nat>, ghost rest: nat) returns (threw: bool)
      requires Conserves(hand, |Log()|) && Roomy(rest)
      modifies queue, outbox, outbox.directory`segments, `tries, `timers, `dropped
      ensures Conserves(hand, |Log()|) && Roomy(rest)
      ensures old(Log()) <= Log() && queue.Offered() == old(queue.Offered())
      ensures queue.Awaited() == old(queue.Awaited()) && |queue.coming| <= |old(queue.coming)|
      ensures Patient(|queue.Offered()|) ==> !threw
      ensures if threw then dropped != {} else dropped == old(dropped) && queue.items == []
    {
      hide *;
      var batch: seq<ShareEvent> := [];
      ghost var lo: nat := |Log()|;
      NothingInHand(hand, lo);
      while true
        invariant Conserves(hand + Range(lo, lo + |batch|), lo) && Roomy(rest + 3 * |batch|)
        invariant Batch(lo, batch) && lo + |batch| == |Log()| && old(Log()) <= Log()
        invariant queue.Offered() == old(queue.Offered()) && dropped == old(dropped)
        invariant queue.Awaited() == old(queue.Awaited()) && |queue.coming| <= |old(queue.coming)|
        decreases |queue.items| + |queue.coming|
      {
        var next := Take(lo, batch, hand, rest + 3 * |batch|);
        if next == None {
          break;
        }
        batch := batch + [next.value];
        Owes(rest + 3 * |batch|, rest + 2 * |batch| + |batch|);
        if |batch| >= Max(1, writerFlushEvents) {
          threw := FlushDequeuedBatchDuringShutdownAsync(lo, batch, true, hand, rest + 2 * |batch|);
          if threw {
            GiveUp(lo, batch, hand);
            Owes(rest + 2 * |batch|, rest);
            return;
          }
          Owes(rest + 2 * |batch|, rest);
          lo, batch := lo + |batch|, [];
          NothingInHand(hand, lo);
        }
      }
      if |batch| > 0 {
        threw := FlushDequeuedBatchDuringShutdownAsync(lo, batch, true, hand, rest + 2 * |batch|);
        if threw {
          GiveUp(lo, batch, hand);
          Owes(rest + 2 * |batch|, rest);
          return;
        }
        Owes(rest + 2 * |batch|, rest);
      } else {
        NothingInHand(hand, lo);
      }
      threw := false;
    }

    lemma Owes(more: nat, less: nat)
      requires Roomy(more) && less <= more
      ensures Roomy(less)
    {
    }

    lemma NothingInHand(hand: set<nat>, lo: nat)
      ensures hand + Range(lo, lo) == hand
      ensures lo <= |Log()| ==> Batch(lo, [])
    {
    }

    lemma BatchStays(log: seq<ShareEvent>, lo: nat, batch: seq<ShareEvent>)
      requires log <= Log() && lo + |batch| <= |log| && log[lo..lo + |batch|] == batch
      ensures Batch(lo, batch)
    {
      assert Log()[lo..lo + |batch|] == log[lo..lo + |batch|];
    }

    /** An event taken for the batch that ends the log. */
    method Take(ghost lo: nat, ghost batch: seq<ShareEvent>, ghost hand: set<nat>, ghost owed: nat)
      returns (next: Option<ShareEvent>)
      requires Conserves(hand + Range(lo, lo + |batch|), lo) && Roomy(owed)
      requires Batch(lo, batch) && lo + |batch| == |Log()|
      modifies queue
      ensures queue.Offered() == old(queue.Offered())
      ensures queue.Awaited() == old(queue.Awaited()) && |queue.coming| <= |old(queue.coming)|
      ensures next == None ==>
        && Conserves(hand + Range(lo, lo + |batch|), lo) && Roomy(owed) && queue.items == []
        && Batch(lo, batch) && Log() == old(Log())
      ensures next.Some? ==>
        && Conserves(hand + Range(lo, lo + |batch| + 1), lo) && Roomy(owed + 3)
        && Batch(lo, batch + [next.value]) && Log() == old(Log()) + [next.value]
        && |queue.items| + |queue.coming| < |old(queue.items)| + |old(queue.coming)|
    {
      hide Tried, Done, Following, End, Lawful, Holds, StandsAt, Sound, AfterAll, Accepted, Accounts, Range;
      ghost var taken := queue.taken;
      assert Log()[lo..] == Log()[lo..lo + |batch|];
      next := queue.TryDequeue();
      if next.Some? {
        TakeAccounts(taken, lo, batch, hand, next.value);
      }
    }

    method DrainRemainingQueueDuringShutdownOnceAsync(ghost hand: set<nat>, ghost rest: nat) returns (threw: bool)
      requires Conserves(hand, |Log()|) && Roomy(rest)
      modifies queue, outbox, outbox.directory`segments, `tries, `timers, `dropped, `shutdownDrainCompleted
      ensures Conserves(hand, |Log()|) && Roomy(rest) && shutdownDrainCompleted
      ensures old(Log()) <= Log() && queue.Offered() == old(queue.Offered())
      ensures queue.Awaited() == old(queue.Awaited()) && |queue.coming| <= |old(queue.coming)|
      ensures Patient(|queue.Offered()|) ==> !threw
      ensures old(shutdownDrainCompleted) ==> !threw
      ensures old(shutdownDrainCompleted) ==>
        Unchanged(old(queue.items), old(queue.taken), old(outbox.chunks), old(tries), old(dropped))
      ensures !old(shutdownDrainCompleted) ==>
        if threw then dropped != {} else dropped == old(dropped) && queue.items == []
    {
      hide Told, Accounts, Following, End, Accepted;
      if shutdownDrainCompleted {
        return false;
      }
      shutdownDrainCompleted := true;
      threw := DrainRemainingQueueDuringShutdownAsync(hand, rest);
    }

    ghost predicate Unchanged(items: seq<ShareEvent>, taken: seq<ShareEvent>, chunks: seq<Chunk>, tries: seq<Try>, dropped: set<nat>)
      reads this, queue, outbox
    {
      queue.items == items && queue.taken == taken && outbox.chunks == chunks && this.tries == tries && this.dropped == dropped
    }

    /** Stopping, after ExecuteAsync has ended or while it has a batch in hand, when the wait for
        it was cut short. The first drain is the only one; one that comes before a batch in
        hand is appended overtakes it. */
    method StopAsync(ghost lo: nat, ghost batch: seq<ShareEvent>, ghost rest: nat) returns (threw: bool)
      requires Conserves(Range(lo, lo + |batch|), lo) && Roomy(rest) && Batch(lo, batch) && lo + |batch| <= |Log()|
      requires batch == [] ==> lo == |Log()|
      modifies queue, outbox, outbox.directory`segments, `tries, `timers, `dropped, `shutdownDrainCompleted, `overtaken
      ensures Conserves(Range(lo, lo + |batch|), lo) && Roomy(rest) && Batch(lo, batch) && shutdownDrainCompleted
      ensures batch == [] ==> Conserves({}, |Log()|) && overtaken == old(overtaken)
      ensures old(overtaken) ==> overtaken
      ensures old(Log()) <= Log() && queue.Offered() == old(queue.Offered()) && (overtaken || batch == [] || Log() == old(Log()))
      ensures queue.Awaited() == old(queue.Awaited()) && |queue.coming| <= |old(queue.coming)|
      ensures Patient(|queue.Offered()|) ==> !threw
      ensures old(shutdownDrainCompleted) ==> !threw && overtaken == old(overtaken)
      ensures old(shutdownDrainCompleted) ==>
        Unchanged(old(queue.items), old(queue.taken), old(outbox.chunks), old(tries), old(dropped))
      ensures !old(shutdownDrainCompleted) ==>
        if threw then dropped != {} else dropped == old(dropped) && queue.items == []
    {
      hide Told, Accounts, Following, End, Accepted, Range;
      if !shutdownDrainCompleted && |batch| > 0 {
        overtaken := true;
      }
      ghost var hand := Range(lo, lo + |batch|);
      if batch == [] {
        NothingInHand({}, lo);
        assert hand == {};
      }
      if shutdownDrainCompleted {
        threw := false;
      } else {
        threw := DrainRemainingQueueDuringShutdownOnceAsync(hand, rest);
        BatchStays(old(Log()), lo, batch);
      }
    }

    // ---------- A batch, and the life ----------

    /** Whenever the token is cancelled, the batch is appended; if that was during the append,
        it is appended a second time, under a token of its own; only if that runs out the
        caller is told. Before each append a drain may overtake it. */
    method FlushBatchWithShutdownRecoveryAsync(ghost lo: nat, batch: seq<ShareEvent>, flushToDisk: bool,
                                               stopping: CancellationToken, ghost rest: nat) returns (threw: bool)
      requires |batch| > 0 && Batch(lo, batch) && Roomy(rest + 2 * |batch|)
      requires overtaken || |Log()| == lo + |batch|
      requires Conserves(Range(lo, lo + |batch|), lo) && (shutdownDrainCompleted ==> dropped != {} || queue.items == [])
      modifies queue, outbox, outbox.directory`segments, `tries, `timers, `dropped, `overtaken, `shutdownDrainCompleted, stopping
      ensures Batch(lo, batch) && Roomy(rest)
      ensures if threw then Conserves(Range(lo, lo + |batch|), lo) else Conserves({}, |Log()|)
      ensures queue.Awaited() == old(queue.Awaited()) && |queue.coming| <= |old(queue.coming)|
      ensures stopping.looks > 0 ==> queue.drained == old(queue.drained)
      ensures old(stopping.looks) <= stopping.looks + 4 * |batch| + 3
      ensures Patient(|queue.Offered()|) ==> !threw && dropped == old(dropped)
      ensures threw ==> stopping.looks == 0 && forall p | lo <= p < lo + |batch| :: Tried(tries, p)
      ensures stopping.looks <= old(stopping.looks) && (shutdownDrainCompleted ==> old(shutdownDrainCompleted) || stopping.looks == 0)
      ensures old(Log()) <= Log() && queue.Offered() == old(queue.Offered())
      ensures shutdownDrainCompleted ==> dropped != {} || queue.items == []
      ensures old(shutdownDrainCompleted) ==> shutdownDrainCompleted
      ensures dropped == old(dropped) || dropped != {}
      ensures overtaken || |Log()| == lo + |batch|
    {
      hide *;
      NothingBesides(lo, batch);
      MayStop(lo, batch, stopping, rest + 2 * |batch|);
      var cancelled := stopping.IsCancellationRequested();
      Owes(rest + 2 * |batch|, rest + |batch| + |batch|);
      if cancelled {
        Owes(rest + 2 * |batch|, rest + |batch|);
      } else {
        ghost var before := tries;
        StandsTold(Range(lo, lo + |batch|), lo);
        cancelled := FlushBatchAsync(lo, batch, flushToDisk, stopping, rest + |batch|);
        AppendOnce(before, lo, batch);
        if !cancelled {
          Owes(rest + |batch|, rest);
          NoneInHand(lo, batch);
          return false;
        }
        MayStop(lo, batch, stopping, rest + |batch|);
      }
      NothingBesides(lo, batch);
      threw := FlushDequeuedBatchDuringShutdownAsync(lo, batch, flushToDisk, {}, rest);
      if !threw { NoneInHand(lo, batch); }
    }

    lemma NothingBesides(lo: nat, batch: seq<ShareEvent>)
      ensures {} + Range(lo, lo + |batch|) == Range(lo, lo + |batch|)
    {
    }

    lemma NoneInHand(lo: nat, batch: seq<ShareEvent>)
      requires Conserves({}, lo + |batch|) && (overtaken || |Log()| == lo + |batch|)
      ensures Conserves({}, |Log()|)
    {
      hide Told, Accounts, Following, End;
    }

    lemma AppendOnce(before: seq<Try>, lo: nat, batch: seq<ShareEvent>)
      requires |batch| > 0 && |tries| > 0 && tries == before + [tries[|tries| - 1]] && Told()
      requires tries[|tries| - 1].from == lo && tries[|tries| - 1].batch == batch
      requires Accounts(before, dropped, |Log()|, Range(lo, lo + |batch|))
      requires dropped == {} && !overtaken ==> Following(before) && lo <= End(before)
      ensures Conserves(Range(lo, lo + |batch|), lo)
      ensures Whole(tries[|tries| - 1]) ==> Conserves({}, lo + |batch|)
      ensures forall p | lo <= p < lo + |batch| :: Tried(tries, p)
    {
      hide Told, Tried, Accounts, Following, End, Range, Whole;
      NothingBesides(lo, batch);
      AppendAccounts(before, tries[|tries| - 1], {});
    }

    /** The wait for this task may be cut short once its token is cancelled. */
    method MayStop(ghost lo: nat, ghost batch: seq<ShareEvent>, stopping: CancellationToken, ghost rest: nat)
      requires Conserves(Range(lo, lo + |batch|), lo) && Roomy(rest) && Batch(lo, batch) && |batch| > 0
      requires overtaken || |Log()| == lo + |batch|
      modifies queue, outbox, outbox.directory`segments, `tries, `timers, `dropped, `shutdownDrainCompleted, `overtaken
      ensures Conserves(Range(lo, lo + |batch|), lo) && Roomy(rest) && Batch(lo, batch)
      ensures overtaken || |Log()| == lo + |batch|
      ensures old(Log()) <= Log() && queue.Offered() == old(queue.Offered())
      ensures queue.Awaited() == old(queue.Awaited()) && |queue.coming| <= |old(queue.coming)|
      ensures stopping.looks > 0 ==> queue.drained == old(queue.drained)
      ensures Patient(|queue.Offered()|) ==> dropped == old(dropped)
      ensures old(shutdownDrainCompleted) ==> shutdownDrainCompleted
      ensures shutdownDrainCompleted ==> old(shutdownDrainCompleted) || stopping.looks == 0
      ensures dropped == old(dropped) || dropped != {}
      ensures (old(shutdownDrainCompleted) ==> old(dropped) != {} || old(queue.items) == [])
        ==> (shutdownDrainCompleted ==> dropped != {} || queue.items == [])
    {
      hide Conserves, Range, Roomy, Log;
      var cutShort: bool := *;
      if stopping.looks == 0 && cutShort {
        var threw := StopAsync(lo, batch, rest);
      }
    }

    /** More events for the batch until it is full, the timer fires, or shutdown. */
    method FillBatchUntilLimitsAsync(ghost lo: nat, first: ShareEvent, bytes0: int, maxEvents: int, maxBytes: int,
                                     stopping: CancellationToken) returns (batch: seq<ShareEvent>)
      requires Conserves(Range(lo, lo + 1), lo) && Roomy(3) && Batch(lo, [first]) && lo + 1 == |Log()|
      requires bytes0 == Max(128, jsonLength(first))
      modifies queue, stopping
      ensures |batch| > 0 && batch[0] == first
      ensures Conserves(Range(lo, lo + |batch|), lo) && Roomy(3 * |batch|) && Batch(lo, batch) && lo + |batch| == |Log()|
      ensures queue.Offered() == old(queue.Offered()) && old(Log()) <= Log()
      ensures stopping.looks <= old(stopping.looks) <= stopping.looks + |batch|
      ensures queue.Awaited() == old(queue.Awaited()) + |batch| - 1
      ensures queue.drained == old(queue.drained) && |queue.coming| <= |old(queue.coming)|
      ensures 1 < |batch| ==> |batch| <= maxEvents && Size(jsonLength, batch[..|batch| - 1]) < maxBytes
    {
      hide Conserves, Roomy, Size, Range, Batch, Log;
      var bytes := bytes0;
      batch := [first];
      OneSize(first);
      while |batch| < maxEvents && bytes < maxBytes
        invariant |batch| > 0 && batch[0] == first
        invariant Conserves(Range(lo, lo + |batch|), lo) && Roomy(3 * |batch|) && Batch(lo, batch) && lo + |batch| == |Log()|
        invariant queue.Offered() == old(queue.Offered()) && old(Log()) <= Log()
        invariant stopping.looks <= old(stopping.looks) <= stopping.looks + |batch| - 1
        invariant queue.Awaited() == old(queue.Awaited()) + |batch| - 1
        invariant queue.drained == old(queue.drained) && |queue.coming| <= |old(queue.coming)|
        invariant bytes == Size(jsonLength, batch)
        invariant 1 < |batch| ==> |batch| <= maxEvents && Size(jsonLength, batch[..|batch| - 1]) < maxBytes
        decreases maxEvents - |batch|
      {
        var next := Dequeue(lo, batch, 3 * |batch|, stopping, true);
        if next == None {
          break;
        }
        SizeSnoc(jsonLength, batch, next.value);
        assert (batch + [next.value])[..|batch|] == batch;
        batch := batch + [next.value];
        bytes := bytes + Max(128, jsonLength(next.value));
      }
    }

    lemma OneSize(e: ShareEvent)
      ensures Size(jsonLength, [e]) == Max(128, jsonLength(e))
    {
      SizeSnoc(jsonLength, [], e);
      assert [] + [e] == [e];
    }

    /** Waiting for an event for the batch that ends the log. */
    method Dequeue(ghost lo: nat, ghost batch: seq<ShareEvent>, ghost owed: nat, stopping: CancellationToken, timed: bool)
      returns (next: Option<ShareEvent>)
      requires Conserves(Range(lo, lo + |batch|), lo) && Roomy(owed)
      requires Batch(lo, batch) && lo + |batch| == |Log()|
      modifies queue, stopping
      ensures queue.Offered() == old(queue.Offered())
      ensures stopping.looks <= old(stopping.looks)
      ensures next == None && !timed ==> stopping.looks == 0 && (old(stopping.looks) == 0 || old(queue.items) == [])
      ensures next.Some? || timed ==> old(stopping.looks) <= stopping.looks + 1
      ensures queue.Awaited() == old(queue.Awaited()) + if next.Some? then 1 else 0
      ensures queue.drained == old(queue.drained) && |queue.coming| <= |old(queue.coming)|
      ensures next == None ==>
        && Conserves(Range(lo, lo + |batch|), lo) && Roomy(owed) && Batch(lo, batch) && Log() == old(Log())
      ensures next.Some? ==>
        && Conserves(Range(lo, lo + |batch| + 1), lo) && Roomy(owed + 3)
        && Batch(lo, batch + [next.value]) && Log() == old(Log()) + [next.value]
    {
      hide Tried, Done, Following, End, Lawful, Holds, StandsAt, Sound, AfterAll, Accepted, Accounts, Range;
      ghost var taken := queue.taken;
      assert Log()[lo..] == Log()[lo..lo + |batch|];
      NothingBesides(lo, batch);
      next := queue.DequeueAsync(stopping, timed);
      if next.Some? {
        TakeAccounts(taken, lo, batch, {}, next.value);
        assert {} + Range(lo, lo + |batch| + 1) == Range(lo, lo + |batch| + 1);
      }
    }

    /** The writer's whole life, for every queue, every schedule of arrivals and every moment at
        which any token is cancelled. When it ends, every event taken was appended whole, or
        its batch was tried and given up when a shutdown token ran out; if none was, the
        queue was found empty; and none is if no shutdown token runs out before all that is
        offered could be appended. The segments hold what the appends made of them, a reader
        finds exactly what these show, and it is undisturbed exactly if it was after each of
        them. Events are not left for the drain: of those queued at the start one for each ten
        looks at the token is taken before. */
    method ExecuteAsync(stopping: CancellationToken) returns (threw: bool)
      requires Conserves({}, |Log()|) && Roomy(0) && !shutdownDrainCompleted && dropped == {}
      modifies this, queue, outbox, outbox.directory`segments, stopping
      ensures shutdownDrainCompleted && Conserves({}, |Log()|)
      ensures queue.Offered() == old(queue.Offered()) && old(Log()) <= Log()
      ensures dropped == {} ==> !threw && queue.items == []
      ensures (forall i: nat :: timeouts(i) >= 4 * |queue.Offered()| + 2) ==> dropped == {}
      ensures forall n | 0 <= n <= |old(queue.items)| && 10 * n < old(stopping.looks) ::
        queue.Awaited() >= old(queue.Awaited()) + n
      ensures Flat(outbox.chunks)
        == Flat(started) + Readable(outbox.codec, outbox.segmentMaxBytes, started, tries)
      ensures outbox.Valid() <==> Undisturbed(outbox.codec, outbox.segmentMaxBytes, started, tries)
    {
      hide *;
      threw := false;
      SizesAre();
      while true
        invariant Conserves({}, |Log()|) && Roomy(0) && old(Log()) <= Log()
        invariant queue.Offered() == old(queue.Offered())
        invariant shutdownDrainCompleted ==> stopping.looks == 0 && (dropped != {} || queue.items == [])
        invariant threw ==> dropped != {}
        invariant Patient(|queue.Offered()|) ==> dropped == {}
        invariant old(queue.Awaited()) <= queue.Awaited() && |queue.coming| <= |old(queue.coming)|
        invariant stopping.looks > 0 ==> queue.drained == old(queue.drained)
        invariant old(stopping.looks) <= stopping.looks + 10 * (queue.Awaited() - old(queue.Awaited()))
        decreases stopping.looks
      {
        var cancelled := stopping.IsCancellationRequested();
        if cancelled { break; }
        SizesAre();
        var going;
        ghost var multiplier, taken;
        going, threw, multiplier, taken := Round(stopping);
        if !going { break; }
      }
      var failed := Finish(stopping);
      threw := threw || failed;
      PatientIs(|queue.Offered()|);
      AtTheEnd();
    }

    lemma PatientIs(events: nat)
      ensures Patient(events) <==> forall i: nat :: timeouts(i) >= 4 * events + 2
    {
    }

    lemma EndsWith(log: seq<ShareEvent>, lo: nat, batch: seq<ShareEvent>)
      requires log <= Log() && lo == |log| && Batch(lo, batch) && lo + |batch| == |Log()|
      ensures log + batch == Log()
    {
    }

    lemma MaxIs(a: int, b: int)
      ensures Max(a, b) == if a < b then b else a
    {
    }

    lemma SizesAre()
      ensures |queue.Offered()| == |queue.taken| + |queue.items| + |queue.coming|
      ensures queue.Awaited() == |queue.taken| - queue.drained
    {
    }

    /** One round of the loop: wait for an event, fill a batch, append it. A live token ends the wait
        only with an event, and is looked at no more than nine times for each event taken; under
        pressure a batch may be four or eight times as long. */
    method Round(stopping: CancellationToken)
      returns (going: bool, threw: bool, ghost multiplier: int, ghost taken: seq<ShareEvent>)
      requires Conserves({}, |Log()|) && Roomy(0) && !shutdownDrainCompleted
      modifies queue, outbox, outbox.directory`segments, `tries, `timers, `dropped, `overtaken, `shutdownDrainCompleted, stopping
      ensures Conserves({}, |Log()|) && Roomy(0) && old(Log()) <= Log()
      ensures queue.Offered() == old(queue.Offered()) && stopping.looks <= old(stopping.looks)
      ensures shutdownDrainCompleted ==> stopping.looks == 0 && (dropped != {} || queue.items == [])
      ensures !going ==> stopping.looks == 0
      ensures threw ==> !going && dropped != {}
      ensures Patient(|queue.Offered()|) ==> dropped == old(dropped)
      ensures |queue.coming| <= |old(queue.coming)| && (stopping.looks > 0 ==> queue.drained == old(queue.drained))
      ensures queue.Awaited() == old(queue.Awaited()) + |taken| && old(Log()) + taken <= Log()
      ensures taken == [] ==> !going && (old(stopping.looks) == 0 || old(queue.items) == [])
      ensures old(stopping.looks) <= stopping.looks + 9 * |taken| || taken == []
      ensures multiplier in {1, 4, 8}
      ensures |taken| > 1 ==> |taken| <= writerFlushEvents * multiplier
      ensures |taken| > 1 ==>
        var bytes := writerFlushBytes * multiplier;
        Size(jsonLength, taken[..|taken| - 1]) < if bytes > 4096 then bytes else 4096
    {
      hide *;
      ghost var lo: nat := |Log()|;
      NothingInHand({}, lo);
      NothingBesides(lo, []);
      var first := Dequeue(lo, [], 0, stopping, false);
      if first == None {
        return false, false, 1, [];  // only a cancelled token ends the wait for a first event
      }
      assert [] + [first.value] == [first.value];
      var m := GetDrainMultiplier();
      multiplier := m;
      MaxIs(1, writerFlushEvents * m);
      MaxIs(4096, writerFlushBytes * m);
      var batch := FillBatchUntilLimitsAsync(lo, first.value, Max(128, jsonLength(first.value)),
                                             Max(1, writerFlushEvents * m),
                                             Max(4096, writerFlushBytes * m), stopping);
      taken := batch;
      EndsWith(old(Log()), lo, batch);
      ghost var log := Log();
      var flushToDisk: bool := *;
      Owes(3 * |batch|, |batch| + 2 * |batch|);
      threw := FlushBatchWithShutdownRecoveryAsync(lo, batch, flushToDisk, stopping, |batch|);
      going := !threw;
      if threw {
        threw := LastAttempt(lo, batch, flushToDisk, stopping);
      } else {
        Owes(|batch|, 0);
      }
    }

    /** However the loop was left. */
    method Finish(stopping: CancellationToken) returns (threw: bool)
      requires Conserves({}, |Log()|) && Roomy(0) && stopping.looks == 0
      requires shutdownDrainCompleted ==> dropped != {} || queue.items == []
      modifies queue, outbox, outbox.directory`segments, `tries, `timers, `dropped, `shutdownDrainCompleted, stopping
      ensures Conserves({}, |Log()|) && Roomy(0) && shutdownDrainCompleted
      ensures old(Log()) <= Log() && queue.Offered() == old(queue.Offered())
      ensures dropped == {} ==> !threw && old(dropped) == {} && queue.items == []
      ensures queue.Awaited() == old(queue.Awaited())
      ensures Patient(|queue.Offered()|) ==> dropped == old(dropped)
    {
      hide Conserves, Roomy, Log;
      threw := false;
      var stopped := stopping.IsCancellationRequested();
      if stopped {
        threw := DrainRemainingQueueDuringShutdownOnceAsync({}, 0);
      }
    }

    /** What the loop does when its batch could not be appended during the shutdown: once more,
        and then it gives up. */
    method LastAttempt(ghost lo: nat, batch: seq<ShareEvent>, flushToDisk: bool, stopping: CancellationToken) returns (threw: bool)
      requires |batch| > 0 && Batch(lo, batch) && Roomy(|batch|) && Conserves(Range(lo, lo + |batch|), lo)
      requires overtaken || |Log()| == lo + |batch|
      requires shutdownDrainCompleted ==> dropped != {} || queue.items == []
      requires stopping.looks == 0
      modifies queue, outbox, outbox.directory`segments, `tries, `timers, `dropped, `overtaken, `shutdownDrainCompleted
      ensures Conserves({}, |Log()|) && Roomy(0)
      ensures old(Log()) <= Log() && queue.Offered() == old(queue.Offered())
      ensures shutdownDrainCompleted ==> dropped != {} || queue.items == []
      ensures threw ==> dropped != {}
      ensures queue.Awaited() == old(queue.Awaited()) && |queue.coming| <= |old(queue.coming)|
      ensures Patient(|queue.Offered()|) ==> dropped == old(dropped)
    {
      hide *;
      MayStop(lo, batch, stopping, |batch|);
      NothingBesides(lo, batch);
      threw := FlushDequeuedBatchDuringShutdownAsync(lo, batch, flushToDisk, {}, 0);
      if threw {
        GiveUp(lo, batch, {});
      } else {
        NoneInHand(lo, batch);
      }
    }

    lemma AtTheEnd()
      requires Conserves({}, |Log()|)
      ensures Flat(outbox.chunks)
        == Flat(started) + Readable(outbox.codec, outbox.segmentMaxBytes, started, tries)
      ensures outbox.Valid() <==> Undisturbed(outbox.codec, outbox.segmentMaxBytes, started, tries)
    {
      hide Holds, Lawful, StandsAt, Sound, Undisturbed, Flat, Readable, AfterAll, Accounts, Following, End, AllRecords, AllGrown;
      AfterReads(outbox.codec, outbox.segmentMaxBytes, started, tries);
      SoundExactly(outbox.codec, outbox.segmentMaxBytes, started, tries);
    }

    /** With no batch given up or overtaken and no append cancelled inside a record, a reader
        finds every event taken, in queue order, repeats apart. */
    lemma EverythingIsRead()
      requires Conserves({}, |Log()|) && dropped == {} && !overtaken && !Dark(started)
      requires forall i | 0 <= i < |tries| :: !IsTorn(outbox.codec, tries[i])
      requires forall e | e in queue.Offered() :: Accepted(outbox.codec, e)
      ensures Distinct(Readable(outbox.codec, outbox.segmentMaxBytes, started, tries)) == Distinct(Log())
    {
      hide Holds, Lawful, StandsAt, Sound, Readable, AfterAll, Accounts, Following, End, IsTorn, Dark, Accepted, Distinct, LeadingValid;
      forall i | 0 <= i < |tries| ensures LeadingValid(outbox.codec, tries[i].batch) == |tries[i].batch| {
        assert TakenFrom(Log(), tries[i]);
        AcceptedBatch(tries[i].from, tries[i].batch);
      }
      EndWithin(Log(), tries);
      NothingLost(outbox.codec, outbox.segmentMaxBytes, started, Log(), tries);
    }

    /** By how much the limits of a batch grow under pressure. */
    method GetDrainMultiplier() returns (m: int)
      ensures
        var q, o := queue, queue.options;
        var critical := q.count >= o.criticalBufferedEvents || q.approximateBytes >= o.criticalBufferedBytes;
        var soft := q.count >= o.softMaxBufferedEvents || q.approximateBytes >= o.softMaxBufferedBytes;
        m == if critical then 8 else if soft then 4 else 1
    {
      if queue.IsAboveCriticalThreshold() {
        return 8;
      }
      if queue.IsAboveSoftThreshold() {
        return 4;
      }
      m := 1;
    }
  }
}
