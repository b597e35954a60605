/** LiveAggregatorService on a stream that grows while it is read: clearing the pools,
    replaying the retained window page by page and then following the consumer group
    gives the counters of an aggregator that never stopped. */
module LiveRestart {
  import opened Contracts
  import opened Cancellation
  import opened DbWriter
  import opened KeyNames
  import opened LiveCounters
  import opened LiveState
  import opened LiveWindows

  /** Stream entry ids: a millisecond and a number within it. */
  datatype Id = Id(ms: int, sequence: nat) {
    predicate Less(other: Id) {
      ms < other.ms || (ms == other.ms && sequence < other.sequence)
    }
  }

  const MAX_SEQUENCE := 9999

  predicate Ascending(ids: seq<Id>) {
    forall i, j | 0 <= i < j < |ids| :: ids[i].Less(ids[j])
  }

  /** Ids ascend, none is ahead of the clock, and no event was created after the entry it
      came with. */
  predicate Sound(ids: seq<Id>, stream: seq<seq<ShareEvent>>, clock: int) {
    && |ids| == |stream|
    && Ascending(ids)
    && (forall i | 0 <= i < |ids| :: ids[i].ms <= clock)
    && (forall i, e | 0 <= i < |ids| && e in stream[i] :: e.created <= ids[i].ms)
  }

  lemma SoundLater(ids: seq<Id>, stream: seq<seq<ShareEvent>>, clock: int, later: int)
    requires Sound(ids, stream, clock) && clock <= later
    ensures Sound(ids, stream, later)
  {
  }

  /** An entry added at the clock's millisecond. */
  function NewId(ids: seq<Id>, clock: int): Id {
    if ids != [] && ids[|ids| - 1].ms == clock then Id(clock, ids[|ids| - 1].sequence + 1) else Id(clock, 0)
  }

  lemma SoundAdd(ids: seq<Id>, stream: seq<seq<ShareEvent>>, clock: int, batch: seq<ShareEvent>)
    requires Sound(ids, stream, clock) && forall e | e in batch :: e.created <= clock
    ensures Sound(ids + [NewId(ids, clock)], stream + [batch], clock)
  {
    var more, all := ids + [NewId(ids, clock)], stream + [batch];
    forall i | 0 <= i < |ids| ensures ids[i].Less(NewId(ids, clock)) {
      assert i < |ids| - 1 ==> ids[i].Less(ids[|ids| - 1]);
    }
    assert forall i | 0 <= i < |ids| :: more[i] == ids[i] && all[i] == stream[i];
  }

  /** Entries are only added, at or after a clock reading. */
  predicate Grown(ids: seq<Id>, stream: seq<seq<ShareEvent>>, clock: int, ids': seq<Id>, stream': seq<seq<ShareEvent>>, clock': int) {
    && clock <= clock' && stream <= stream' && ids <= ids'
    && forall i | |ids| <= i < |ids'| :: clock <= ids'[i].ms
  }

  lemma GrownMore(ids: seq<Id>, stream: seq<seq<ShareEvent>>, clock: int, ids': seq<Id>, stream': seq<seq<ShareEvent>>,
                  clock': int, id: Id, batch: seq<ShareEvent>)
    requires Grown(ids, stream, clock, ids', stream', clock') && clock <= id.ms
    ensures Grown(ids, stream, clock, ids' + [id], stream' + [batch], clock')
  {
  }

  /** What it takes to handle the entries that are pending or were not given out yet: a look for
      each event and five for each entry. */
  function Owed(stream: seq<seq<ShareEvent>>, next: nat, pending: set<nat>): nat {
    if stream == [] then 0
    else
      var k := |stream| - 1;
      Owed(stream[..k], next, pending) + if k < next && k !in pending then 0 else |stream[k]| + 5
  }

  lemma OwedSnoc(stream: seq<seq<ShareEvent>>, batch: seq<ShareEvent>, next: nat, pending: set<nat>)
    requires next <= |stream|
    ensures Owed(stream + [batch], next, pending) == Owed(stream, next, pending) + |batch| + 5
  {
    assert (stream + [batch])[..|stream|] == stream;
  }

  /** Giving entries out changes nothing that is owed. */
  lemma {:induction false} OwedGiven(stream: seq<seq<ShareEvent>>, next: nat, next': nat, pending: set<nat>)
    requires next <= next'
    ensures Owed(stream, next', pending + Range(next, next')) == Owed(stream, next, pending)
    decreases |stream|
  {
    hide Range;
    if stream != [] { OwedGiven(stream[..|stream| - 1], next, next', pending); }
  }

  lemma {:induction false} OwedAcknowledged(stream: seq<seq<ShareEvent>>, next: nat, pending: set<nat>, k: nat)
    requires k in pending && k < next
    ensures Owed(stream, next, pending)
      == Owed(stream, next, pending - {k}) + if k < |stream| then |stream[k]| + 5 else 0
    decreases |stream|
  {
    if stream != [] { OwedAcknowledged(stream[..|stream| - 1], next, pending, k); }
  }

  lemma {:induction false} OwedAtMost(stream: seq<seq<ShareEvent>>, next: nat, pending: set<nat>)
    ensures Owed(stream, next, pending) <= Owed(stream, 0, {})
    decreases |stream|
  {
    if stream != [] { OwedAtMost(stream[..|stream| - 1], next, pending); }
  }

  /** What the first n entries take. */
  function Upto(stream: seq<seq<ShareEvent>>, n: nat): nat
    requires n <= |stream|
  {
    Owed(stream[..n], 0, {})
  }

  lemma UptoSame(stream: seq<seq<ShareEvent>>, more: seq<seq<ShareEvent>>, n: nat)
    requires stream <= more && n <= |stream|
    ensures Upto(stream, n) == Upto(more, n)
  {
    assert stream[..n] == more[..n];
  }

  lemma UptoNext(stream: seq<seq<ShareEvent>>, n: nat)
    requires n < |stream|
    ensures Upto(stream, n + 1) == Upto(stream, n) + |stream[n]| + 5
  {
    assert stream[..n + 1][..n] == stream[..n];
  }

  lemma {:induction false} UptoAll(stream: seq<seq<ShareEvent>>, n: nat)
    requires n <= |stream|
    ensures Upto(stream, n) <= Owed(stream, 0, {})
    decreases |stream| - n
  {
    if n < |stream| {
      UptoNext(stream, n);
      UptoAll(stream, n + 1);
    } else {
      assert stream[..n] == stream;
    }
  }

  /** A stream of batches, its group "live-aggregator", and the store the clock belongs to. */
  class RedisStreamsConsumer {
    const group: ConsumerGroup
    const db: Redis
    var ids: seq<Id>
    var groupExists: bool
    /** What the entries that will still be published will take. */
    var toCome: nat

    ghost predicate Valid()
      reads this, group, db
    {
      Sound(ids, group.stream, db.clock) && group.Owns()
    }

    /** What all entries take, and what those take that the group does not have behind it. */
    ghost function Load(): nat
      reads this, group
    {
      Owed(group.stream, 0, {}) + toCome
    }

    ghost function Due(): nat
      reads this, group
    {
      Owed(group.stream, group.next, group.pending) + toCome
    }

    constructor (group: ConsumerGroup, db: Redis, ids: seq<Id>, groupExists: bool, toCome: nat)
      ensures this.group == group && this.db == db && this.ids == ids && this.groupExists == groupExists
      ensures this.toCome == toCome
    {
      this.group, this.db, this.ids, this.groupExists, this.toCome := group, db, ids, groupExists, toCome;
    }

    /** Time passes and publishers add entries. */
    method OtherTasks()
      requires Valid()
      modifies this`ids, this`toCome, group`stream, db`clock
      ensures Valid() && Grown(old(ids), old(group.stream), old(db.clock), ids, group.stream, db.clock)
      ensures Load() == old(Load()) && Due() == old(Due())
    {
      hide Sound, Grown, Owed;
      NotGrown(ids, group.stream, db.clock);
      Lengths();
      var n: int := *;
      for i := 0 to if n > 0 then n else 0
        invariant Valid() && |old(ids)| <= |ids|
        invariant Grown(old(ids), old(group.stream), old(db.clock), ids, group.stream, db.clock)
        invariant Load() == old(Load()) && Due() == old(Due())
      {
        var batch: seq<ShareEvent> := *;
        AwaitClock();
        if |batch| + 5 <= toCome && forall e | e in batch :: e.created <= db.clock {
          Lengths();
          SoundAdd(ids, group.stream, db.clock, batch);
          GrownMore(old(ids), old(group.stream), old(db.clock), ids, group.stream, db.clock, NewId(ids, db.clock), batch);
          OwedSnoc(group.stream, batch, 0, {});
          OwedSnoc(group.stream, batch, group.next, group.pending);
          ids, group.stream, toCome := ids + [NewId(ids, db.clock)], group.stream + [batch], toCome - (|batch| + 5);
        }
      }
      AwaitClock();
    }

    lemma NoneAhead()
      requires Valid()
      ensures forall i | 0 <= i < |ids| :: ids[i].ms <= db.clock
    {
    }

    lemma IsAscending()
      requires Valid()
      ensures Ascending(ids)
    {
    }

    lemma Lengths()
      requires Valid()
      ensures |group.stream| == |ids|
    {
    }

    lemma UptoLoad(n: nat)
      requires n <= |group.stream|
      ensures Upto(group.stream, n) <= Load()
    {
      UptoAll(group.stream, n);
    }

    lemma DueWithin()
      ensures Due() <= Load()
    {
      OwedAtMost(group.stream, group.next, group.pending);
    }

    method AwaitClock()
      requires Valid()
      modifies db`clock
      ensures Valid() && old(db.clock) <= db.clock
      ensures forall ids0, stream0, clock0 | Grown(ids0, stream0, clock0, ids, group.stream, old(db.clock)) ::
        clock0 <= db.clock && Grown(ids0, stream0, clock0, ids, group.stream, db.clock)
    {
      hide Sound;
      db.Pass();
      SoundLater(ids, group.stream, old(db.clock), db.clock);
    }

    /** Creates the group at the end of the stream; an existing group is left as it is. */
    method EnsureGroupAsync()
      requires Valid()
      modifies this, group, db`clock
      ensures Valid() && groupExists && Load() == old(Load())
      ensures Grown(old(ids), old(group.stream), old(db.clock), ids, group.stream, db.clock)
      ensures old(groupExists) ==>
        group.next == old(group.next) && group.pending == old(group.pending) && group.owned == old(group.owned)
      ensures !old(groupExists) ==> group.next == |ids| && group.pending == {} && group.owned == {}
    {
      hide Sound, Grown;
      OtherTasks();
      Lengths();
      if !groupExists {
        groupExists := true;
        group.next, group.pending, group.owned := |ids|, {}, {};
      }
    }
  }

  lemma NotGrown(ids: seq<Id>, stream: seq<seq<ShareEvent>>, clock: int)
    ensures Grown(ids, stream, clock, ids, stream, clock)
  {
  }

  /** Whether a range from min on passes over an entry. */
  predicate Before(id: Id, min: Id, exclusive: bool) {
    id.Less(min) || (exclusive && id == min)
  }

  /** Where the first entry with an id not less than min (greater, when exclusive) is. */
  function FirstFrom(ids: seq<Id>, min: Id, exclusive: bool): (i: nat)
    ensures i <= |ids|
    ensures forall j | 0 <= j < i :: Before(ids[j], min, exclusive)
    ensures i < |ids| ==> !Before(ids[i], min, exclusive)
  {
    if ids == [] || !Before(ids[0], min, exclusive) then 0 else 1 + FirstFrom(ids[1..], min, exclusive)
  }

  /** How many of the first `count` entries have an id not greater than max. */
  function CountUpTo(ids: seq<Id>, max: Id, count: nat): (n: nat)
    ensures n <= count && n <= |ids|
    ensures forall j | 0 <= j < n :: !max.Less(ids[j])
    ensures n < count && n < |ids| ==> max.Less(ids[n])
  {
    if ids == [] || count == 0 || max.Less(ids[0]) then 0 else 1 + CountUpTo(ids[1..], max, count - 1)
  }

  /** The entries before `at` are the ones before min, or up to it when exclusive. */
  predicate Boundary(ids: seq<Id>, at: nat, min: Id, exclusive: bool) {
    && at <= |ids|
    && (forall i | 0 <= i < at :: Before(ids[i], min, exclusive))
    && (forall i | at <= i < |ids| :: !Before(ids[i], min, exclusive))
  }

  lemma FirstIsBoundary(ids: seq<Id>, at: nat, min: Id, exclusive: bool)
    requires Boundary(ids, at, min, exclusive)
    ensures FirstFrom(ids, min, exclusive) == at
  {
    hide Before;
    var f := FirstFrom(ids, min, exclusive);
    assert f < |ids| ==> !Before(ids[f], min, exclusive);
    assert at < |ids| ==> !Before(ids[at], min, exclusive);
  }

  /** Later entries come behind the boundary. */
  lemma BoundaryGrows(ids: seq<Id>, more: seq<Id>, at: nat, min: Id, exclusive: bool, clock: int)
    requires Ascending(more) && ids <= more && Boundary(ids, at, min, exclusive)
    requires if exclusive then at > 0 && ids[at - 1] == min else min.sequence == 0 && min.ms <= clock
    requires forall i | |ids| <= i < |more| :: clock <= more[i].ms
    ensures Boundary(more, at, min, exclusive)
  {
    assert forall i | 0 <= i < at :: more[i] == ids[i];
    if exclusive {
      assert forall i | |ids| <= i < |more| :: more[at - 1].Less(more[i]);
    }
  }

  /** What is left to visit: entries of past milliseconds, then numbers in the last. */
  function Left(at: nat, past: nat, min: Id, exclusive: bool, max: Id): (r: (nat, nat))
    requires !max.Less(min) && max.sequence == MAX_SEQUENCE
  {
    (if at < past then past - at else 0,
     if exclusive && min.ms == max.ms then MAX_SEQUENCE - min.sequence else MAX_SEQUENCE + 1)
  }

  predicate Smaller(a: (nat, nat), b: (nat, nat)) {
    a.0 < b.0 || (a.0 == b.0 && a.1 < b.1)
  }

  lemma LeftDrops(ids: seq<Id>, at: nat, past: nat, min: Id, exclusive: bool, max: Id, n: nat)
    requires Ascending(ids) && !max.Less(min) && max.sequence == MAX_SEQUENCE && 0 < n && at + n <= |ids|
    requires exclusive ==> at > 0 && ids[at - 1] == min
    requires Boundary(ids, past, Id(max.ms, 0), false) && !max.Less(ids[at + n - 1])
    ensures Smaller(Left(at + n, past, ids[at + n - 1], true, max), Left(at, past, min, exclusive, max))
  {
  }

  /** A page of a range: the entries from the boundary on, up to max; when it is short,
      nothing up to max is left behind it. */
  lemma PageIs(ids: seq<Id>, at: nat, max: Id, count: nat)
    requires Ascending(ids) && at <= |ids|
    ensures
      var n := CountUpTo(ids[at..], max, count);
      && (forall i | at <= i < at + n :: !max.Less(ids[i]))
      && (n < count ==> forall i | at + n <= i < |ids| :: max.Less(ids[i]))
  {
    var tail := ids[at..];
    var n := CountUpTo(tail, max, count);
    forall i | at <= i < at + n ensures !max.Less(ids[i]) {
      assert ids[i] == tail[i - at];
    }
    if n < count && at + n < |ids| {
      assert ids[at + n] == tail[n];
      assert forall i | at + n < i < |ids| :: ids[at + n].Less(ids[i]);
    }
  }

  lemma BehindIsBoundary(ids: seq<Id>, m: nat)
    requires Ascending(ids) && 0 < m <= |ids|
    ensures Boundary(ids, m, ids[m - 1], true)
  {
  }

  /** The enumerator ReadRangePagesAsync yields: pages from minId on, then from behind the
      last entry of the page before. */
  class RangePages {
    const consumer: RedisStreamsConsumer
    const maxId: Id
    const pageSize: Positive
    var minId: Id
    var exclusive: bool
    var begun: bool
    var finished: bool
    /** The index in the stream of the first entry not yet visited, the length of the
        stream when it was last asked, and how many entries are older than maxId's
        millisecond. */
    ghost var at: nat
    ghost var asked: nat
    ghost var past: nat

    ghost predicate Valid()
      reads this, consumer, consumer.group, consumer.db
    {
      && consumer.Valid() && at <= |consumer.ids| && asked <= |consumer.ids| && past <= |consumer.ids|
      && maxId.sequence == MAX_SEQUENCE && maxId.ms <= consumer.db.clock && !maxId.Less(minId)
      && (!finished ==>
            && Boundary(consumer.ids, at, minId, exclusive)
            && if exclusive then at > 0 && consumer.ids[at - 1] == minId else minId.sequence == 0 && minId.ms <= maxId.ms)
      && Boundary(consumer.ids, past, Id(maxId.ms, 0), false)
      && (finished ==> forall i | at <= i < asked :: maxId.Less(consumer.ids[i]))
    }

    constructor (consumer: RedisStreamsConsumer, from: int, to: int, count: int)
      requires consumer.Valid() && from <= to <= consumer.db.clock
      ensures Valid() && this.consumer == consumer && !begun && !finished && maxId.ms == to
      ensures forall i | 0 <= i < |consumer.ids| :: i < at <==> consumer.ids[i].ms < from
      ensures asked == |consumer.ids|
    {
      hide FirstFrom;
      consumer.IsAscending();
      this.consumer, this.maxId := consumer, Id(to, MAX_SEQUENCE);
      this.pageSize := if count > 1 then count else 1;
      this.minId, this.exclusive, this.begun, this.finished := Id(from, 0), false, false, false;
      this.at, this.asked := FirstFrom(consumer.ids, Id(from, 0), false), |consumer.ids|;
      this.past := FirstFrom(consumer.ids, Id(to, 0), false);
    }

    ghost function Remaining(): (nat, nat)
      requires Valid()
      reads this, consumer, consumer.group, consumer.db
    {
      Left(at, past, minId, exclusive, maxId)
    }

    method AwaitRange()
      requires Valid() && !finished
      modifies this`asked, consumer`ids, consumer`toCome, consumer.group`stream, consumer.db`clock
      ensures Grown(old(consumer.ids), old(consumer.group.stream), old(consumer.db.clock),
                    consumer.ids, consumer.group.stream, consumer.db.clock)
      ensures Valid() && old(asked) <= asked && asked == |consumer.ids|
      ensures consumer.Load() == old(consumer.Load()) && consumer.Due() == old(consumer.Due())
    {
      hide Left, Boundary, Sound, Owed;
      consumer.OtherTasks();
      consumer.IsAscending();
      BoundaryGrows(old(consumer.ids), consumer.ids, at, minId, exclusive, old(consumer.db.clock));
      BoundaryGrows(old(consumer.ids), consumer.ids, past, Id(maxId.ms, 0), false, old(consumer.db.clock));
      asked := |consumer.ids|;
    }

    /** The next page: the entries that follow the ones visited, in order, none left out;
        or the end, when nothing up to maxId that was there is left, or the token is
        cancelled, which is looked at once for each page and once before them. */
    method MoveNextAsync(ct: CancellationToken) returns (cancelled: bool, page: seq<seq<ShareEvent>>, more: bool)
      requires Valid()
      modifies this, consumer`ids, consumer`toCome, consumer.group`stream, consumer.db`clock, ct
      ensures Grown(old(consumer.ids), old(consumer.group.stream), old(consumer.db.clock),
                    consumer.ids, consumer.group.stream, consumer.db.clock)
      ensures Valid() && begun && old(asked) <= asked && past == old(past)
      ensures consumer.Load() == old(consumer.Load()) && consumer.Due() == old(consumer.Due())
      ensures cancelled ==> ct.looks == 0 && !more
      ensures ct.looks <= old(ct.looks) <= ct.looks + if old(begun) then 1 else 2
      ensures more ==> !old(finished) && old(at) < at && page == consumer.group.stream[old(at)..at] && |page| <= pageSize
      ensures more ==> forall i | old(at) <= i < at :: !maxId.Less(consumer.ids[i])
      ensures more && !finished ==> |page| == pageSize && Smaller(Remaining(), old(Remaining()))
      ensures !more ==> page == [] && at == old(at) && (!cancelled ==> finished)
    {
      hide FirstFrom, CountUpTo, Left, Boundary, Sound, Grown, Owed;
      NotGrown(consumer.ids, consumer.group.stream, consumer.db.clock);
      if !begun {
        begun := true;
        cancelled := ct.IsCancellationRequested();
        if cancelled { return true, [], false; }
      }
      if finished {
        return false, [], false;
      }
      cancelled := ct.IsCancellationRequested();
      if cancelled { return true, [], false; }
      page, more := ReadPage();
    }

    method ReadPage() returns (page: seq<seq<ShareEvent>>, more: bool)
      requires Valid() && !finished
      modifies this, consumer`ids, consumer`toCome, consumer.group`stream, consumer.db`clock
      ensures Grown(old(consumer.ids), old(consumer.group.stream), old(consumer.db.clock),
                    consumer.ids, consumer.group.stream, consumer.db.clock)
      ensures Valid() && begun == old(begun) && old(asked) <= asked && past == old(past)
      ensures consumer.Load() == old(consumer.Load()) && consumer.Due() == old(consumer.Due())
      ensures more ==> old(at) < at && page == consumer.group.stream[old(at)..at] && |page| <= pageSize
      ensures more ==> forall i | old(at) <= i < at :: !maxId.Less(consumer.ids[i])
      ensures more && !finished ==> |page| == pageSize && Smaller(Remaining(), old(Remaining()))
      ensures !more ==> page == [] && at == old(at) && finished
    {
      hide FirstFrom, CountUpTo, Left, Boundary, Sound, Grown, Owed;
      AwaitRange();
      consumer.Lengths();
      assert Ascending(consumer.ids) by { consumer.IsAscending(); }
      FirstIsBoundary(consumer.ids, at, minId, exclusive);
      PageIs(consumer.ids, at, maxId, pageSize);
      var first := FirstFrom(consumer.ids, minId, exclusive);
      var n := CountUpTo(consumer.ids[first..], maxId, pageSize);
      page, more := consumer.group.stream[first..first + n], n > 0;
      if n == pageSize {
        BehindIsBoundary(consumer.ids, at + n);
        LeftDrops(consumer.ids, at, past, minId, exclusive, maxId, n);
        minId, exclusive := consumer.ids[first + n - 1], true;
      } else {
        finished := true;
      }
      at := at + n;
    }
  }

  // ---------- The aggregator ----------

  /** The events of the batches that were created from `from` to `now`. */
  function Selected(batches: seq<seq<ShareEvent>>, from: int, now: int): (r: seq<ShareEvent>)
    ensures forall e :: e in r <==> from <= e.created <= now && exists i :: 0 <= i < |batches| && e in batches[i]
  {
    if batches == [] then []
    else Selected(batches[..|batches| - 1], from, now) + Created(batches[|batches| - 1], from, now)
  }

  function Created(events: seq<ShareEvent>, from: int, now: int): (r: seq<ShareEvent>)
    ensures forall e :: e in r <==> from <= e.created <= now && e in events
  {
    if events == [] then []
    else
      var e := events[|events| - 1];
      Created(events[..|events| - 1], from, now) + if from <= e.created <= now then [e] else []
  }

  lemma {:induction false} CreatedSize(events: seq<ShareEvent>, from: int, now: int)
    ensures |Created(events, from, now)| <= |events|
    decreases |events|
  {
    if events != [] { CreatedSize(events[..|events| - 1], from, now); }
  }

  /** A page takes no more than its entries do. */
  lemma {:induction false} PageTakes(stream: seq<seq<ShareEvent>>, at: nat, end: nat, from: int, now: int)
    requires at <= end <= |stream|
    ensures |Selected(stream[at..end], from, now)| + (if at < end then 1 else 0) + Upto(stream, at) <= Upto(stream, end)
    decreases end - at
  {
    hide Upto, Created;
    if at < end {
      assert stream[at..end][..end - at - 1] == stream[at..end - 1];
      PageTakes(stream, at, end - 1, from, now);
      CreatedSize(stream[end - 1], from, now);
      UptoNext(stream, end - 1);
    }
  }

  /** The entry's events from `from` on have all been delivered. */
  ghost predicate Done(batch: seq<ShareEvent>, from: int, history: seq<ShareEvent>) {
    forall e | e in batch && from <= e.created :: e in history
  }

  lemma DoneKept(batch: seq<ShareEvent>, from: int, history: seq<ShareEvent>, more: seq<ShareEvent>)
    requires Done(batch, from, history) && forall e | e in history :: e in more
    ensures Done(batch, from, more)
  {
  }

  lemma WrittenIsDone(batch: seq<ShareEvent>, from: int, history: seq<ShareEvent>)
    requires forall e | e in batch :: e in history
    ensures Done(batch, from, history)
  {
  }

  lemma AtIsInStream(stream: seq<seq<ShareEvent>>, k: nat)
    requires k < |stream|
    ensures forall e | e in stream[k] :: InStream(stream, e)
  {
  }

  ghost predicate AllDone(stream: seq<seq<ShareEvent>>, n: nat, from: int, history: seq<ShareEvent>) {
    n <= |stream| && forall i | 0 <= i < n :: Done(stream[i], from, history)
  }

  lemma AllDoneKept(stream: seq<seq<ShareEvent>>, n: nat, from: int, history: seq<ShareEvent>,
                    stream': seq<seq<ShareEvent>>, history': seq<ShareEvent>)
    requires AllDone(stream, n, from, history) && stream <= stream' && forall e | e in history :: e in history'
    ensures AllDone(stream', n, from, history')
  {
    assert forall i | 0 <= i < n :: stream'[i] == stream[i];
  }

  /** Entries older than `from` bring no event created since. */
  lemma OldEntriesAreDone(ids: seq<Id>, stream: seq<seq<ShareEvent>>, clock: int, n: nat, from: int, history: seq<ShareEvent>)
    requires Sound(ids, stream, clock) && n <= |ids| && forall i | 0 <= i < n :: ids[i].ms < from
    ensures AllDone(stream, n, from, history)
  {
  }

  /** A page whose selected events have been delivered is done. */
  lemma PageIsDone(ids: seq<Id>, stream: seq<seq<ShareEvent>>, clock: int, n: nat, m: nat, from: int, now: int,
                   history: seq<ShareEvent>)
    requires Sound(ids, stream, clock) && n <= m <= |ids| && AllDone(stream, n, from, history)
    requires forall i | n <= i < m :: !Id(now, MAX_SEQUENCE).Less(ids[i])
    requires forall e | e in Selected(stream[n..m], from, now) :: e in history
    ensures AllDone(stream, m, from, history)
  {
    forall i | n <= i < m ensures Done(stream[i], from, history) {
      forall e | e in stream[i] && from <= e.created ensures e in history {
        assert e in stream[n..m][i - n];
      }
    }
  }

  /** Whether a replay that ends at `now` can name an entry of the retained stream. */
  predicate Within(id: Id, now: int) {
    id.ms < now || id.sequence <= MAX_SEQUENCE
  }

  /** When the pages have ended, of what was there at the start exactly the entries from
      the first millisecond up to the highest id the range names have been visited. */
  lemma VisitedExactly(ids: seq<Id>, retained: seq<Id>, from: int, first: nat, asked: nat, at: nat, now: int)
    requires retained <= ids && |retained| <= asked <= |ids| && first <= at <= |ids|
    requires forall i | 0 <= i < |retained| :: retained[i].ms <= now && (i < first <==> retained[i].ms < from)
    requires forall i | first <= i < at :: !Id(now, MAX_SEQUENCE).Less(ids[i])
    requires forall i | at <= i < asked :: Id(now, MAX_SEQUENCE).Less(ids[i])
    requires from <= now
    ensures forall i | 0 <= i < |retained| ::
      first <= i < at <==> !retained[i].Less(Id(from, 0)) && !Id(now, MAX_SEQUENCE).Less(retained[i])
    ensures forall i | 0 <= i < |retained| :: i < at <==> Within(retained[i], now)
    ensures |retained| <= at <==> forall i | 0 <= i < |retained| :: Within(retained[i], now)
  {
    assert forall i | 0 <= i < |retained| :: ids[i] == retained[i];
    if at < |retained| { assert !Within(retained[at], now); }
  }

  /** Of the millisecond a replay ends in, the entries numbered from 10000 on are not visited: the
      page they would come on is empty, which ends the range; the others are. */
  lemma EntryBeyondRange(ids: seq<Id>, at: nat, now: int, count: nat)
    requires at < |ids| && ids[at].ms == now && count > 0
    ensures Within(ids[at], now) <==> ids[at].sequence <= 9_999
    ensures CountUpTo(ids[at..], Id(now, MAX_SEQUENCE), count) == 0 <==> ids[at].sequence >= 10_000
  {
    assert ids[at..][0] == ids[at];
  }

  /** What a replay did: from which millisecond to which, and from which entry to which. */
  datatype Replay = Replay(from: int, now: int, first: nat, visited: nat)

  /** The event came with one of these entries. */
  ghost predicate Among(stream: seq<seq<ShareEvent>>, first: nat, end: nat, e: ShareEvent) {
    exists i :: first <= i < end <= |stream| && e in stream[i]
  }

  lemma AmongMore(stream: seq<seq<ShareEvent>>, first: nat, end: nat, stream': seq<seq<ShareEvent>>, first': nat, end': nat)
    requires stream <= stream' && first' <= first && end <= end' <= |stream'|
    ensures forall e | Among(stream, first, end, e) :: Among(stream', first', end', e)
  {
    forall e | Among(stream, first, end, e) ensures Among(stream', first', end', e) {
      var i :| first <= i < end <= |stream| && e in stream[i];
      assert e in stream'[i];
    }
  }

  lemma SelectedAmong(stream: seq<seq<ShareEvent>>, first: nat, end: nat, from: int, now: int)
    requires first <= end <= |stream|
    ensures forall e | e in Selected(stream[first..end], from, now) :: Among(stream, first, end, e)
  {
    forall e | e in Selected(stream[first..end], from, now) ensures Among(stream, first, end, e) {
      var i :| 0 <= i < end - first && e in stream[first..end][i];
      assert e in stream[first + i];
    }
  }

  /** An entry the replay did not visit is done exactly when what it brought since the start
      had come with visited ones too. */
  lemma MissedExactly(stream: seq<seq<ShareEvent>>, r: Replay, history: seq<ShareEvent>, i: nat)
    requires r.visited <= i < |stream| && AllDone(stream, r.visited, r.from, history)
    requires forall e | e in history :: Among(stream, r.first, r.visited, e)
    ensures Done(stream[i], r.from, history) <==>
      forall e | e in stream[i] && r.from <= e.created :: Among(stream, r.first, r.visited, e)
  {
    forall e | e in stream[i] && r.from <= e.created && Among(stream, r.first, r.visited, e) ensures e in history {
      var j :| r.first <= j < r.visited <= |stream| && e in stream[j];
      assert Done(stream[j], r.from, history);
    }
  }

  ghost predicate Streamed(stream: seq<seq<ShareEvent>>, history: seq<ShareEvent>) {
    forall e | e in history :: InStream(stream, e)
  }

  ghost predicate InStream(stream: seq<seq<ShareEvent>>, e: ShareEvent) {
    exists i :: 0 <= i < |stream| && e in stream[i]
  }

  class LiveAggregatorService {
    const consumer: RedisStreamsConsumer
    const writer: RedisLiveStateWriter
    const liveWindowSeconds: nat
    const readBatchSize: nat
    /** Everything delivered to the writer since the service started. */
    ghost var history: seq<ShareEvent>

    ghost predicate Valid()
      reads this, consumer, consumer.group, consumer.db, writer
    {
      && consumer.Valid() && writer.db == consumer.db && writer.Valid()
      && writer.counted == Counted(writer.s, history)
      && Streamed(consumer.group.stream, history)
    }

    constructor (consumer: RedisStreamsConsumer, writer: RedisLiveStateWriter, liveWindowSeconds: nat, readBatchSize: nat)
      requires consumer.Valid() && writer.db == consumer.db && writer.Valid() && writer.counted == []
      ensures Valid() && this.consumer == consumer && this.writer == writer && history == []
    {
      this.consumer, this.writer, this.history := consumer, writer, [];
      this.liveWindowSeconds, this.readBatchSize := liveWindowSeconds, readBatchSize;
    }

    /** Deliver events of the stream to the writer. */
    method WriteAsync(events: seq<ShareEvent>, ct: CancellationToken) returns (completed: bool)
      requires Valid() && forall e | e in events :: InStream(consumer.group.stream, e)
      modifies this, writer, consumer.db, ct
      ensures Valid() && old(consumer.db.clock) <= consumer.db.clock && writer.pools == old(writer.pools)
      ensures completed <==> |events| <= old(ct.looks)
      ensures ct.looks == if completed then old(ct.looks) - |events| else 0
      ensures forall e | e in old(history) :: e in history
      ensures forall e | e in history :: e in old(history) || e in events
      ensures completed ==> forall e | e in events :: e in history
    {
      hide Encoded, Sound, InStream;
      forall e | e in events ensures e.created <= consumer.db.clock { NotAhead(e); }
      ghost var written;
      var documents;
      ghost var readings;
      completed, documents, readings, written := writer.WriteBatchAsync(events, ct);
      NextAllAppend(writer.s, [], history, events[..written]);
      history := history + events[..written];
      SoundLater(consumer.ids, consumer.group.stream, old(consumer.db.clock), consumer.db.clock);
      assert events[..|events|] == events;
    }

    lemma NotAhead(e: ShareEvent)
      requires consumer.Valid() && InStream(consumer.group.stream, e)
      ensures e.created <= consumer.db.clock
    {
    }

    method NextPageAsync(pages: RangePages, ct: CancellationToken)
      returns (cancelled: bool, page: seq<seq<ShareEvent>>, more: bool)
      requires Valid() && pages.Valid() && pages.consumer == consumer
      modifies pages, consumer`ids, consumer`toCome, consumer.group`stream, consumer.db`clock, ct
      ensures Valid() && pages.Valid() && pages.begun
      ensures consumer.Load() == old(consumer.Load()) && consumer.Due() == old(consumer.Due())
      ensures cancelled ==> ct.looks == 0 && !more
      ensures ct.looks <= old(ct.looks) <= ct.looks + if old(pages.begun) then 1 else 2
      ensures Grown(old(consumer.ids), old(consumer.group.stream), old(consumer.db.clock),
                    consumer.ids, consumer.group.stream, consumer.db.clock)
      ensures old(pages.asked) <= pages.asked && pages.past == old(pages.past)
      ensures more ==> !old(pages.finished) && old(pages.at) < pages.at && page == consumer.group.stream[old(pages.at)..pages.at]
      ensures more ==> forall i | old(pages.at) <= i < pages.at :: !pages.maxId.Less(consumer.ids[i])
      ensures more && !pages.finished ==> Smaller(pages.Remaining(), old(pages.Remaining()))
      ensures !more ==> page == [] && pages.at == old(pages.at) && (!cancelled ==> pages.finished)
    {
      hide Sound, Boundary, Left, Smaller, CountersHold, MembersHold, Counted, InStream, Owed;
      cancelled, page, more := pages.MoveNextAsync(ct);
      writer.StillAgrees(old(consumer.db.clock));
      StreamedGrows(old(consumer.group.stream), consumer.group.stream, history);
    }

    method ReplayPageAsync(pages: RangePages, ghost at: nat, page: seq<seq<ShareEvent>>, from: int, now: int,
                           ct: CancellationToken) returns (completed: bool)
      requires Valid() && pages.Valid() && pages.consumer == consumer && pages.maxId.ms == now
      requires at <= pages.at && page == consumer.group.stream[at..pages.at]
      requires AllDone(consumer.group.stream, at, from, history)
      requires forall i | at <= i < pages.at :: !pages.maxId.Less(consumer.ids[i])
      modifies this, writer, consumer.db, ct
      ensures Valid() && pages.Valid() && writer.pools == old(writer.pools) && old(consumer.db.clock) <= consumer.db.clock
      ensures pages.Remaining() == old(pages.Remaining())
      ensures forall e | e in history :: e in old(history) || Among(consumer.group.stream, at, pages.at, e)
      ensures completed ==> AllDone(consumer.group.stream, pages.at, from, history)
      ensures !completed ==> ct.looks == 0
      ensures ct.looks <= old(ct.looks)
      ensures at < pages.at ==>
        old(ct.looks) + 1 + Upto(consumer.group.stream, at) <= ct.looks + Upto(consumer.group.stream, pages.at)
    {
      hide Sound, AllDone, Boundary, CountersHold, MembersHold, Counted, Streamed, Among, Upto;
      consumer.Lengths();
      PageTakes(consumer.group.stream, at, pages.at, from, now);
      var events := Selected(page, from, now);
      SelectedAmong(consumer.group.stream, at, pages.at, from, now);
      forall e | e in events ensures InStream(consumer.group.stream, e) {
        var i :| 0 <= i < |page| && e in page[i];
        assert e in consumer.group.stream[at + i];
      }
      completed := true;
      if |events| > 0 {
        completed := WriteAsync(events, ct);
      }
      AllDoneKept(consumer.group.stream, at, from, old(history), consumer.group.stream, history);
      if completed {
        PageIsDone(consumer.ids, consumer.group.stream, consumer.db.clock, at, pages.at, from, now, history);
      }
    }

    /** One page: read it and deliver what it selects. */
    method ReplayNextAsync(pages: RangePages, ghost first: nat, from: int, now: int, ghost before: seq<ShareEvent>,
                           ct: CancellationToken)
      returns (more: bool, done: bool)
      requires Valid() && pages.Valid() && pages.consumer == consumer && pages.maxId.ms == now
      requires AllDone(consumer.group.stream, pages.at, from, history)
      requires first <= pages.at <= |consumer.group.stream|
      requires forall i | first <= i < pages.at :: !pages.maxId.Less(consumer.ids[i])
      requires forall e | e in history :: e in before || Among(consumer.group.stream, first, pages.at, e)
      modifies this, writer, consumer.db, consumer`ids, consumer`toCome, consumer.group`stream, pages, ct
      ensures Valid() && pages.Valid() && writer.pools == old(writer.pools)
      ensures consumer.Load() == old(consumer.Load()) && consumer.Due() == old(consumer.Due())
      ensures !done ==> ct.looks == 0
      ensures pages.begun && old(pages.at) <= |old(consumer.group.stream)| && ct.looks <= old(ct.looks)
      ensures old(ct.looks) + Upto(old(consumer.group.stream), old(pages.at))
        <= ct.looks + (if old(pages.begun) then 0 else 1) + (if more then 0 else 1) + Upto(consumer.group.stream, pages.at)
      ensures old(consumer.ids) <= consumer.ids && old(consumer.group.stream) <= consumer.group.stream
      ensures old(consumer.db.clock) <= consumer.db.clock && old(pages.asked) <= pages.asked
      ensures first <= pages.at <= |consumer.group.stream|
      ensures forall i | first <= i < pages.at :: !pages.maxId.Less(consumer.ids[i])
      ensures forall e | e in history :: e in before || Among(consumer.group.stream, first, pages.at, e)
      ensures done ==> AllDone(consumer.group.stream, pages.at, from, history)
      ensures more && !pages.finished ==> !old(pages.finished) && Smaller(pages.Remaining(), old(pages.Remaining()))
      ensures more ==> !old(pages.finished)
      ensures !more ==> !done || pages.finished
    {
      hide Sound, AllDone, Boundary, Streamed, Left, CountersHold, MembersHold, Counted, Selected, InStream,
           RangePages.Remaining, Among, Smaller, Upto, Owed;
      ghost var at, ids, stream := pages.at, consumer.ids, consumer.group.stream;
      var cancelled, page;
      cancelled, page, more := NextPageAsync(pages, ct);
      UptoSame(stream, consumer.group.stream, at);
      AllDoneKept(stream, at, from, history, consumer.group.stream, history);
      consumer.Lengths();
      AmongMore(stream, first, at, consumer.group.stream, first, pages.at);
      AmongMore(consumer.group.stream, at, pages.at, consumer.group.stream, first, pages.at);
      done := !cancelled;
      if more {
        done := ReplayPageAsync(pages, at, page, from, now, ct);
      }
    }

    /** Replays the retained stream; the pages end. Of what was on the stream when the replay
        began, exactly the entries from the window's start up to the highest id the range
        names are visited; they are done afterwards, and nothing else was delivered. */
    method RebuildFromRetainedStreamAsync(ct: CancellationToken) returns (completed: bool, ghost r: Replay)
      requires Valid()
      modifies this, writer, consumer.db, consumer`ids, consumer`toCome, consumer.group`stream, ct
      ensures consumer.Load() == old(consumer.Load()) && consumer.Due() == old(consumer.Due())
      ensures !completed ==> ct.looks == 0
      ensures ct.looks <= old(ct.looks) <= ct.looks + 2 + consumer.Load()
      ensures Valid() && writer.pools == old(writer.pools)
      ensures old(consumer.db.clock) <= r.now <= consumer.db.clock && r.from == r.now - liveWindowSeconds * 1000
      ensures old(consumer.ids) <= consumer.ids && old(consumer.group.stream) <= consumer.group.stream
      ensures r.first <= r.visited <= |consumer.group.stream|
      ensures forall e | e in history :: e in old(history) || Among(consumer.group.stream, r.first, r.visited, e)
      ensures completed ==> AllDone(consumer.group.stream, r.visited, r.from, history)
      ensures completed ==> forall i | 0 <= i < |old(consumer.ids)| ::
        (r.first <= i < r.visited <==>
          !old(consumer.ids)[i].Less(Id(r.from, 0)) && !Id(r.now, MAX_SEQUENCE).Less(old(consumer.ids)[i]))
      ensures completed ==> forall i | 0 <= i < |old(consumer.ids)| :: i < r.visited <==> Within(old(consumer.ids)[i], r.now)
    {
      hide Sound, AllDone, Boundary, Streamed, Left, CountersHold, MembersHold, Counted, Selected, InStream,
           RangePages.Remaining, Among, Within, Upto, Owed;
      consumer.NoneAhead();
      consumer.Lengths();
      consumer.AwaitClock();
      writer.StillAgrees(old(consumer.db.clock));
      var now := consumer.db.clock;
      var start := now - liveWindowSeconds * 1000;
      var pages := new RangePages(consumer, start, now, if readBatchSize > 1000 then readBatchSize else 1000);
      ghost var first := pages.at;
      r := Replay(start, now, first, first);
      OldEntriesAreDone(consumer.ids, consumer.group.stream, now, pages.at, start, history);
      completed := false;
      var more := true;
      while more
        invariant Valid() && writer.pools == old(writer.pools) && pages.Valid() && pages.consumer == consumer
        invariant old(consumer.ids) <= consumer.ids && old(consumer.group.stream) <= consumer.group.stream
        invariant AllDone(consumer.group.stream, pages.at, start, history)
        invariant |old(consumer.ids)| <= pages.asked && pages.maxId.ms == now && fresh(pages)
        invariant now <= consumer.db.clock
        invariant first <= pages.at <= |consumer.group.stream| && r == Replay(start, now, first, pages.at)
        invariant forall i | first <= i < pages.at :: !pages.maxId.Less(consumer.ids[i])
        invariant forall e | e in history :: e in old(history) || Among(consumer.group.stream, first, pages.at, e)
        invariant !more ==> pages.finished
        invariant consumer.Load() == old(consumer.Load()) && consumer.Due() == old(consumer.Due())
        invariant ct.looks <= old(ct.looks)
        invariant old(ct.looks)
          <= ct.looks + (if pages.begun then 1 else 0) + (if more then 0 else 1) + Upto(consumer.group.stream, pages.at)
        decreases more, !pages.finished, pages.Remaining().0, pages.Remaining().1
      {
        var done;
        more, done := ReplayNextAsync(pages, first, start, now, old(history), ct);
        r := Replay(start, now, first, pages.at);
        consumer.UptoLoad(pages.at);
        if !done { return; }
      }
      completed := true;
      consumer.UptoLoad(pages.at);
      VisitedExactly(consumer.ids, old(consumer.ids), start, first, pages.asked, pages.at, now);
    }

    /** The group's entries that are not pending are done, but for the missed ones: the
        invariant of the loop. */
    ghost predicate Following(from: int, missed: set<nat>)
      reads this, consumer, consumer.group
    {
      && consumer.group.next <= |consumer.group.stream|
      && forall i | 0 <= i < consumer.group.next && i !in consumer.group.pending && i !in missed ::
           Done(consumer.group.stream[i], from, history)
    }

    /** All that came with the entry has been delivered. */
    ghost predicate Written(k: nat)
      reads this, consumer, consumer.group
    {
      k < |consumer.group.stream| && forall e | e in consumer.group.stream[k] :: e in history
    }

    /** One round: read pending entries first, write each, acknowledge what was written. Unless
        the token is cancelled, everything read is delivered and acknowledged; when there was
        nothing to read, the group has given everything out. */
    method ConsumeAsync(ghost from: int, ghost missed: set<nat>, ct: CancellationToken)
      returns (going: bool, ghost records: seq<nat>)
      requires Valid()
      modifies this, writer, consumer.db, consumer, consumer.group, ct
      ensures Valid() && writer.pools == old(writer.pools) && old(consumer.ids) <= consumer.ids
      ensures old(Following(from, missed)) ==> Following(from, missed)
      ensures !going ==> ct.looks == 0
      ensures consumer.Load() == old(consumer.Load()) && consumer.Due() <= old(consumer.Due())
      ensures ct.looks <= old(ct.looks) <= ct.looks + 4 + old(consumer.Due())
      ensures old(consumer.group.next) <= consumer.group.next && old(consumer.group.stream) <= consumer.group.stream
      ensures forall k | k in consumer.group.pending :: k in old(consumer.group.pending) || k >= old(consumer.group.next)
      ensures going ==> consumer.group.owned <= old(consumer.group.owned)
      ensures going ==>
        consumer.group.pending - consumer.group.owned <= old(consumer.group.pending) - old(consumer.group.owned)
      ensures going ==> forall k | k in records ::
        k < consumer.group.next && k !in consumer.group.pending && Written(k)
      ensures going && records == [] && readBatchSize > 0 ==>
        consumer.group.next >= |old(consumer.group.stream)| && consumer.group.owned == {}
      ensures going && records != [] ==> old(ct.looks) + 1 <= ct.looks + old(consumer.Due()) - consumer.Due()
    {
      hide *;
      records := [];
      OtherTasksAsync(from, missed);
      ghost var next, pending, owned := consumer.group.next, consumer.group.pending, consumer.group.owned;
      var cancelled, read;
      cancelled, read := ReadRecords(from, missed, ct);
      if cancelled { return false, records; }
      if read == [] {
        cancelled := ct.IsCancellationRequested();  // the idle delay
        return !cancelled, records;
      }
      going := WriteAll(read, from, missed, ct);
      if going {
        records := read;
        NoneKept(owned, read);
      }
    }

    /** The records of a round; they are not yet done, but they no longer await delivery. */
    method ReadRecords(ghost from: int, ghost missed: set<nat>, ct: CancellationToken)
      returns (cancelled: bool, records: seq<nat>)
      requires Valid()
      modifies consumer.group`next, consumer.group`pending, consumer.group`owned, ct
      ensures Valid() && old(consumer.group.next) <= consumer.group.next
      ensures old(Following(from, missed)) ==> Following(from, missed)
      ensures consumer.Load() == old(consumer.Load()) && consumer.Due() == old(consumer.Due())
      ensures cancelled ==> records == [] && ct.looks == 0
      ensures ct.looks <= old(ct.looks) <= ct.looks + 3
      ensures forall k | k in records :: k in consumer.group.pending
      ensures forall i, j | 0 <= i < j < |records| :: records[i] != records[j]
      ensures consumer.group.owned == old(consumer.group.owned) + set k | k in records
      ensures forall k | k in consumer.group.pending :: k in old(consumer.group.pending) || k >= old(consumer.group.next)
      ensures forall k | k in consumer.group.pending && k !in consumer.group.owned ::
        k in old(consumer.group.pending) && k !in old(consumer.group.owned)
      ensures !cancelled && records == [] && readBatchSize > 0 ==>
        consumer.group.next == |consumer.group.stream| && consumer.group.owned == {}
    {
      hide Sound, Done, Streamed, CountersHold, MembersHold, Counted, InStream, Encoded, AllWhite, Range, Owed;
      ghost var next, pending := consumer.group.next, consumer.group.pending;
      ghost var claimed;
      cancelled, records, claimed := consumer.group.ReadPendingFirstAsync(readBatchSize, ct);
      if consumer.group.next != next || consumer.group.pending != pending {
        OwedGiven(consumer.group.stream, next, consumer.group.next, pending);
        forall k | k in Range(next, consumer.group.next) ensures k in records {
          assert records[k - next] == k;
        }
      }
    }

    /** Each entry is written, and acknowledged once all of it is. */
    method WriteAll(records: seq<nat>, ghost from: int, ghost missed: set<nat>, ct: CancellationToken) returns (going: bool)
      requires Valid()
      requires forall k | k in records :: k in consumer.group.pending
      requires forall i, j | 0 <= i < j < |records| :: records[i] != records[j]
      modifies this, writer, consumer.db, consumer, consumer.group, ct
      ensures Valid() && writer.pools == old(writer.pools) && old(consumer.ids) <= consumer.ids
      ensures old(Following(from, missed)) ==> Following(from, missed)
      ensures !going ==> ct.looks == 0
      ensures consumer.Load() == old(consumer.Load()) && consumer.Due() <= old(consumer.Due())
      ensures ct.looks <= old(ct.looks) <= ct.looks + old(consumer.Due())
      ensures going ==> old(ct.looks) + 5 * |records| <= ct.looks + old(consumer.Due()) - consumer.Due()
      ensures consumer.group.next == old(consumer.group.next) && old(consumer.group.stream) <= consumer.group.stream
      ensures consumer.group.pending <= old(consumer.group.pending) && consumer.group.owned <= old(consumer.group.owned)
      ensures going ==> consumer.group.pending == old(consumer.group.pending) - set k | k in records
      ensures going ==> consumer.group.owned == old(consumer.group.owned) - set k | k in records
      ensures going ==> forall k | k in records :: k < consumer.group.next && Written(k)
    {
      hide *;
      for r := 0 to |records|
        invariant Valid() && writer.pools == old(writer.pools) && old(consumer.ids) <= consumer.ids
        invariant old(Following(from, missed)) ==> Following(from, missed)
        invariant consumer.Load() == old(consumer.Load()) && 0 <= consumer.Due() <= old(consumer.Due())
        invariant ct.looks <= old(ct.looks) && old(ct.looks) + 5 * r <= ct.looks + old(consumer.Due()) - consumer.Due()
        invariant consumer.group.next == old(consumer.group.next) && old(consumer.group.stream) <= consumer.group.stream
        invariant consumer.group.pending == old(consumer.group.pending) - set k | k in records[..r]
        invariant consumer.group.owned == old(consumer.group.owned) - set k | k in records[..r]
        invariant forall k | k in records[..r] :: k < consumer.group.next && Written(k)
      {
        NotYet(records, r);
        assert records[r] in records;
        ghost var done := records[..r];
        going := WriteOne(records[r], from, missed, ct);
        if !going { return; }
        assert records[..r + 1] == done + [records[r]];
      }
      assert records[..|records|] == records;
      going := true;
    }

    lemma NotYet(records: seq<nat>, r: nat)
      requires r < |records| && forall i, j | 0 <= i < j < |records| :: records[i] != records[j]
      ensures records[r] !in records[..r]
    {
    }

    method WriteOne(k: nat, ghost from: int, ghost missed: set<nat>, ct: CancellationToken) returns (going: bool)
      requires Valid() && k in consumer.group.pending
      modifies this, writer, consumer.db, consumer, consumer.group, ct
      ensures Valid() && writer.pools == old(writer.pools) && old(consumer.ids) <= consumer.ids
      ensures old(Following(from, missed)) ==> Following(from, missed)
      ensures consumer.Load() == old(consumer.Load()) && consumer.Due() <= old(consumer.Due())
      ensures consumer.group.next == old(consumer.group.next) && old(consumer.group.stream) <= consumer.group.stream
      ensures forall j | old(Written(j)) :: Written(j)
      ensures consumer.group.pending == old(consumer.group.pending) - if going then {k} else {}
      ensures consumer.group.owned == old(consumer.group.owned) - if going then {k} else {}
      ensures !going ==> ct.looks == 0
      ensures ct.looks <= old(ct.looks) <= ct.looks + old(consumer.Due())
      ensures going ==> k < consumer.group.next && Written(k)
      ensures going ==> old(ct.looks) + 5 <= ct.looks + old(consumer.Due()) - consumer.Due()
    {
      hide Sound, Done, Streamed, CountersHold, MembersHold, Counted, InStream, Encoded, AllWhite, Range, Owed;
      OtherTasksAsync(from, missed);
      consumer.Lengths();
      AtIsInStream(consumer.group.stream, k);
      OwedAcknowledged(consumer.group.stream, consumer.group.next, consumer.group.pending, k);
      label before:
      going := WriteAsync(consumer.group.stream[k], ct);
      forall i | 0 <= i < consumer.group.next && Done(consumer.group.stream[i], from, old@before(history))
        ensures Done(consumer.group.stream[i], from, history)
      {
        DoneKept(consumer.group.stream[i], from, old@before(history), history);
      }
      if !going { return; }
      WrittenIsDone(consumer.group.stream[k], from, history);
      consumer.group.AcknowledgeAsync(k);
    }

    /** What is still pending under this consumer's name was before, or was read and is not. */
    lemma NoneKept(owned: set<nat>, read: seq<nat>)
      requires consumer.group.owned <= owned + set k | k in read
      requires forall k | k in read :: k !in consumer.group.owned
      ensures consumer.group.owned <= owned
    {
    }

    method OtherTasksAsync(ghost from: int, ghost missed: set<nat>)
      requires Valid()
      modifies consumer`ids, consumer`toCome, consumer.group`stream, consumer.db`clock
      ensures Valid() && old(consumer.group.stream) <= consumer.group.stream && old(consumer.ids) <= consumer.ids
      ensures consumer.Load() == old(consumer.Load()) && consumer.Due() == old(consumer.Due())
      ensures old(Following(from, missed)) ==> Following(from, missed)
    {
      hide Sound, Done, CountersHold, MembersHold, Counted, Streamed, Owed;
      consumer.OtherTasks();
      writer.StillAgrees(old(consumer.db.clock));
      StreamedGrows(old(consumer.group.stream), consumer.group.stream, history);
    }

    /** Clearing changes nothing that was delivered: nothing was. */
    method ClearPoolsAsync(pools: seq<string>)
      requires Valid() && history == []
      modifies writer, consumer.db
      ensures Valid() && old(writer.pools) <= writer.pools && old(consumer.db.clock) <= consumer.db.clock
      ensures forall i | 0 <= i < |pools| && !White(writer.s, pools[i]) :: Encoded(writer.s.cc, pools[i]) in writer.pools
    {
      hide Sound, CountersHold, MembersHold, Encoded, AllWhite;
      for i := 0 to |pools|
        invariant Valid() && old(writer.pools) <= writer.pools && old(consumer.db.clock) <= consumer.db.clock
        invariant forall j | 0 <= j < i && !White(writer.s, pools[j]) :: Encoded(writer.s.cc, pools[j]) in writer.pools
      {
        label before:
        writer.ClearPoolStateAsync(pools[i]);
        SoundLater(consumer.ids, consumer.group.stream, old@before(consumer.db.clock), consumer.db.clock);
        NothingToClear(writer.s, pools[i]);
      }
    }

    /** Startup in the source's order: the group first, then the pools are cleared, then the
        retained stream is replayed. Missed are the entries the group has behind it and the
        replay cannot name: those of the millisecond it ends in that are numbered above
        9999. What they brought is delivered only if it came with visited entries too. */
    method StartAsync(pools: seq<string>, ct: CancellationToken) returns (started: bool, ghost r: Replay, ghost missed: set<nat>)
      requires Valid() && history == []
      modifies this, writer, consumer.db, consumer, consumer.group, ct
      ensures Valid() && old(consumer.ids) <= consumer.ids && old(consumer.group.stream) <= consumer.group.stream
      ensures !started ==> ct.looks == 0
      ensures ct.looks <= old(ct.looks) <= ct.looks + 2 + old(consumer.Load()) && consumer.Load() == old(consumer.Load())
      ensures consumer.group.pending == consumer.group.owned == {}
        || (consumer.group.pending == old(consumer.group.pending) && consumer.group.owned == old(consumer.group.owned))
      ensures forall i | 0 <= i < |pools| && !White(writer.s, pools[i]) :: Encoded(writer.s.cc, pools[i]) in writer.pools
      ensures started ==> Following(r.from, missed)
      ensures started ==> consumer.group.next <= |consumer.ids| && forall i: nat :: i in missed <==>
        i < consumer.group.next && i !in consumer.group.pending && !Within(consumer.ids[i], r.now)
      ensures started ==> forall i | i in missed ::
        i < |consumer.group.stream| &&
        (Done(consumer.group.stream[i], r.from, history) <==>
          forall e | e in consumer.group.stream[i] && r.from <= e.created :: Among(consumer.group.stream, r.first, r.visited, e))
    {
      hide Sound, Done, Streamed, CountersHold, MembersHold, Encoded, AllWhite, InStream, AllDone, Among, Within, Owed;
      consumer.EnsureGroupAsync();
      writer.StillAgrees(old(consumer.db.clock));
      StreamedGrows(old(consumer.group.stream), consumer.group.stream, history);
      ClearPoolsAsync(pools);
      ghost var ids := consumer.ids;
      consumer.Lengths();
      started, r := RebuildFromRetainedStreamAsync(ct);
      missed := set i: nat | i < consumer.group.next && i !in consumer.group.pending && !Within(consumer.ids[i], r.now);
      if started {
        assert forall i | 0 <= i < |ids| :: consumer.ids[i] == ids[i];
        DoneUpTo(consumer.group.stream, r.visited, r.from, history);
        forall i | i in missed ensures
          i < |consumer.group.stream| &&
          (Done(consumer.group.stream[i], r.from, history) <==>
            forall e | e in consumer.group.stream[i] && r.from <= e.created :: Among(consumer.group.stream, r.first, r.visited, e))
        {
          MissedExactly(consumer.group.stream, r, history, i);
        }
      }
    }

    /** The service: everything the group has behind it is done, but for what the replay
        missed. It ends only when the token is cancelled; and if that lives long enough, by a number
        known at the start, all that was on the stream then has been given out, and is still
        pending only if it was, under another consumer's name. */
    method ExecuteAsync(pools: seq<string>, ct: CancellationToken)
      returns (started: bool, ghost r: Replay, ghost missed: set<nat>)
      requires Valid() && history == []
      modifies this, writer, consumer.db, consumer, consumer.group, ct
      ensures Valid() && ct.looks == 0
      ensures forall i | 0 <= i < |pools| && !White(writer.s, pools[i]) :: Encoded(writer.s.cc, pools[i]) in writer.pools
      ensures started ==> Following(r.from, missed)
      ensures started ==> forall i | i in missed :: i < |consumer.ids| && !Within(consumer.ids[i], r.now)
      ensures readBatchSize > 0 && old(ct.looks) > 2 * old(consumer.Load()) + 7 ==>
        && started && consumer.group.next >= |old(consumer.group.stream)|
        && forall k | 0 <= k < |old(consumer.group.stream)| && k in consumer.group.pending ::
             k in old(consumer.group.pending) && k !in old(consumer.group.owned)
    {
      hide *;
      ghost var enough := readBatchSize > 0 && ct.looks > 2 * consumer.Load() + 7;
      ghost var goal, strangers := |consumer.group.stream|, consumer.group.pending - consumer.group.owned;
      started, r, missed := StartAsync(pools, ct);
      if !started { return; }
      consumer.DueWithin();
      ghost var due, looks := consumer.Due(), ct.looks;
      while true
        invariant Valid()
        invariant forall i | 0 <= i < |pools| && !White(writer.s, pools[i]) :: Encoded(writer.s.cc, pools[i]) in writer.pools
        invariant Following(r.from, missed)
        invariant forall i | i in missed :: i < |consumer.ids| && !Within(consumer.ids[i], r.now)
        invariant goal <= |consumer.group.stream| && consumer.group.pending - consumer.group.owned <= strangers
        invariant looks <= ct.looks + due - consumer.Due()
          || (readBatchSize > 0 ==> consumer.group.next >= goal && consumer.group.owned == {})
        decreases ct.looks
      {
        var cancelled := ct.IsCancellationRequested();
        if cancelled {
          assert enough ==> forall k | k in consumer.group.pending :: k in strangers;
          break;
        }
        ghost var pending, owned := consumer.group.pending, consumer.group.owned;
        var going;
        ghost var records;
        going, records := ConsumeAsync(r.from, missed, ct);
        if !going {
          assert enough ==> forall k | k in pending :: k in strangers;
          break;
        }
      }
    }

    /** When the group has nothing left to deliver, the counters of the buckets that lie
        after the replay's start are those of any aggregator that got the stream's events,
        in whatever order and with whatever repeats. */
    lemma RestartLeavesNoTrace(from: int, uninterrupted: seq<ShareEvent>, k: Key)
      requires Valid() && Following(from, {})
      requires consumer.group.next == |consumer.group.stream| && consumer.group.pending == {}
      requires LiveWindows.ConsistentIds(writer.s, uninterrupted)
      requires forall e :: e in uninterrupted <==> InStream(consumer.group.stream, e)
      requires IsCounter(k) && Covered(writer.s, writer.pools, k) && from <= k.timestamp * 1000
      requires consumer.db.clock < Deadline(writer.s, k.timestamp)
      ensures Get(consumer.db.hashes, KeyName(writer.s.cc, k), consumer.db.clock, ZERO)
           == Expected(writer.s, Counted(writer.s, uninterrupted), k)
    {
      hide Sound, KeyName, Encoded, Expected, MembersHold, Counted, Plus, Logged, AllWhite, Get;
      var s, c, d := writer.s, Counted(writer.s, history), Counted(writer.s, uninterrupted);
      ConsistentPart(s, history, uninterrupted);
      CountedOnce(s, history);
      CountedOnce(s, uninterrupted);
      forall e | Hits(s, e, k) ensures e in c <==> e in d {
        HitIsRecent(s, e, k, from);
        if e in uninterrupted {
          var i :| 0 <= i < |consumer.group.stream| && e in consumer.group.stream[i];
          assert Done(consumer.group.stream[i], from, history);
        }
      }
      SameEventsSameCounter(s, c, d, k);
      LoggedNone(s.cc, k);
      PlusLaws(Expected(s, c, k), ZERO, ZERO, ZERO);
    }
  }

  lemma ConsistentPart(s: Settings, h: seq<ShareEvent>, all: seq<ShareEvent>)
    requires LiveWindows.ConsistentIds(s, all) && forall i | 0 <= i < |h| :: h[i] in all
    ensures LiveWindows.ConsistentIds(s, h)
  {
    hide AllWhite;
    forall i | 0 <= i < |h| ensures !White(s, h[i].eventId) {
      var m :| 0 <= m < |all| && all[m] == h[i];
    }
    forall i, j | 0 <= i < |h| && 0 <= j < |h| && h[i].eventId == h[j].eventId ensures h[i] == h[j] {
      var m :| 0 <= m < |all| && all[m] == h[i];
      var n :| 0 <= n < |all| && all[n] == h[j];
    }
  }

  lemma HitIsRecent(s: Settings, e: ShareEvent, k: Key, from: int)
    requires IsCounter(k) && Hits(s, e, k) && k.timestamp > 0 && from <= k.timestamp * 1000
    ensures from <= e.created
  {
    hide BucketStart, Encoded, AllWhite;
    StartIsMultiple(s.bucket, e.created);
  }

  lemma StreamedGrows(stream: seq<seq<ShareEvent>>, more: seq<seq<ShareEvent>>, history: seq<ShareEvent>)
    requires Streamed(stream, history) && stream <= more
    ensures Streamed(more, history)
  {
    forall e | e in history ensures InStream(more, e) {
      var i :| 0 <= i < |stream| && e in stream[i];
      assert more[i] == stream[i];
    }
  }

  lemma DoneUpTo(stream: seq<seq<ShareEvent>>, n: nat, from: int, history: seq<ShareEvent>)
    requires AllDone(stream, n, from, history)
    ensures forall i | 0 <= i < n :: i < |stream| && Done(stream[i], from, history)
  {
  }
}
