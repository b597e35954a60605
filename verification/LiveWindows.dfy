/** Sums of live counters: over the buckets of a window, over the miners of a pool and
    the workers of a miner, and their relation to the events themselves. */
module LiveWindows {
  import opened Contracts
  import opened KeyNames
  import opened LiveCounters

  lemma PlusLaws(a: Tally, b: Tally, c: Tally, d: Tally)
    ensures Plus(Plus(a, b), Plus(c, d)) == Plus(Plus(a, c), Plus(b, d))
    ensures Plus(a, ZERO) == a == Plus(ZERO, a)
  {
  }

  // ---------- The buckets of a window ----------

  /** Bucket starts from lo to hi, ascending, none left out. */
  ghost predicate Tiles(bucket: Positive, r: seq<int>, lo: int, hi: int) {
    && (forall i, j | 0 <= i < j < |r| :: r[i] < r[j])
    && (forall i | 0 <= i < |r| :: lo <= r[i] <= hi)
    && (forall ms :: lo <= BucketStart(bucket, ms) <= hi ==> BucketStart(bucket, ms) in r)
  }

  method Buckets(bucket: Positive, from: int, to: int) returns (r: seq<int>)
    ensures Tiles(bucket, r, BucketStart(bucket, from), BucketStart(bucket, to))
  {
    hide BucketStart, Quotient;
    var start, end := BucketStart(bucket, from), BucketStart(bucket, to);
    var b := start;
    r := [];
    StartIsMultiple(bucket, from);
    ghost var q := Quotient(bucket, from);
    while b <= end
      invariant b == bucket * q && start <= b
      invariant forall i, j | 0 <= i < j < |r| :: r[i] < r[j]
      invariant forall i | 0 <= i < |r| :: start <= r[i] <= end && r[i] < b
      invariant forall ms :: start <= BucketStart(bucket, ms) < b ==> BucketStart(bucket, ms) in r
      decreases end - b
    {
      forall ms | b <= BucketStart(bucket, ms) < b + bucket ensures BucketStart(bucket, ms) == b {
        StartIsMultiple(bucket, ms);
        Between(bucket, q, Quotient(bucket, ms));
      }
      MulSucc(bucket, q);
      r, b, q := r + [b], b + bucket, q + 1;
    }
  }

  lemma Between(b: Positive, q: int, p: int)
    requires b * q <= b * p < b * q + b
    ensures p == q
  {
    if p < q { MulOrder(b, p, q); }
    if q < p { MulOrder(b, q, p); }
  }

  lemma MulSucc(b: Positive, q: int)
    ensures b * (q + 1) == b * q + b
  {
  }

  // ---------- A key's counter over a window ----------

  function At(k: Key, bucket: int): (r: Key)
    requires IsCounter(k)
    ensures IsCounter(r) && r.timestamp == bucket && r.pool == k.pool
  {
    match k
    case PoolBucket(p, _) => PoolBucket(p, bucket)
    case MinerBucket(p, m, _) => MinerBucket(p, m, bucket)
    case WorkerBucket(p, m, w, _) => WorkerBucket(p, m, w, bucket)
  }

  predicate InWindow(s: Settings, e: ShareEvent, lo: int, hi: int) {
    lo <= BucketOf(s, e) <= hi
  }

  /** Whether the event is the key's, whichever the bucket. */
  predicate Belongs(s: Settings, e: ShareEvent, k: Key)
    requires IsCounter(k)
  {
    Hits(s, e, At(k, BucketOf(s, e)))
  }

  function WindowShare(s: Settings, e: ShareEvent, k: Key, lo: int, hi: int): Tally
    requires IsCounter(k)
  {
    if InWindow(s, e, lo, hi) && Belongs(s, e, k) then Weight(e) else ZERO
  }

  /** The sum over the counted events of the key whose bucket lies in the window. */
  function WindowTally(s: Settings, c: seq<ShareEvent>, k: Key, lo: int, hi: int): Tally
    requires IsCounter(k)
  {
    if c == [] then ZERO
    else Plus(WindowTally(s, c[..|c| - 1], k, lo, hi), WindowShare(s, c[|c| - 1], k, lo, hi))
  }

  /** The sum of the counters of the listed buckets. */
  function SumOver(s: Settings, c: seq<ShareEvent>, k: Key, r: seq<int>): Tally
    requires IsCounter(k)
  {
    if r == [] then ZERO
    else Plus(SumOver(s, c, k, r[..|r| - 1]), Expected(s, c, At(k, r[|r| - 1])))
  }

  function ShareSum(s: Settings, e: ShareEvent, k: Key, r: seq<int>): Tally
    requires IsCounter(k)
  {
    if r == [] then ZERO else Plus(ShareSum(s, e, k, r[..|r| - 1]), Share(s, e, At(k, r[|r| - 1])))
  }

  lemma ShareAt(s: Settings, e: ShareEvent, k: Key, b: int)
    requires IsCounter(k)
    ensures Share(s, e, At(k, b)) == if b == BucketOf(s, e) && Belongs(s, e, k) then Weight(e) else ZERO
  {
    hide Encoded, BucketOf, White, Weight;
  }

  lemma LastIsNew(r: seq<int>)
    requires r != [] && forall i, j | 0 <= i < j < |r| :: r[i] < r[j]
    ensures r[|r| - 1] !in r[..|r| - 1]
  {
  }

  /** An event is in at most one bucket. */
  lemma {:induction false} ShareSumIs(s: Settings, e: ShareEvent, k: Key, r: seq<int>)
    requires IsCounter(k) && forall i, j | 0 <= i < j < |r| :: r[i] < r[j]
    ensures ShareSum(s, e, k, r) == if BucketOf(s, e) in r && Belongs(s, e, k) then Weight(e) else ZERO
    decreases |r|
  {
    hide Share, BucketOf, Weight, Plus, Belongs, At;
    if r == [] {
    } else {
      var init, b := r[..|r| - 1], r[|r| - 1];
      ShareSumIs(s, e, k, init);
      ShareAt(s, e, k, b);
      PlusLaws(Weight(e), ZERO, ZERO, ZERO);
      PlusLaws(ZERO, ZERO, ZERO, ZERO);
      assert r == init + [b];
      LastIsNew(r);
    }
  }

  lemma {:induction false} SumOverSnoc(s: Settings, c: seq<ShareEvent>, e: ShareEvent, k: Key, r: seq<int>)
    requires IsCounter(k)
    ensures SumOver(s, c + [e], k, r) == Plus(SumOver(s, c, k, r), ShareSum(s, e, k, r))
    decreases |r|
  {
    hide Share, Expected, Plus, At;
    if r == [] {
      PlusLaws(ZERO, ZERO, ZERO, ZERO);
    } else {
      var init, b := r[..|r| - 1], r[|r| - 1];
      SumOverSnoc(s, c, e, k, init);
      ExpectedSnoc(s, c, e, At(k, b));
      PlusLaws(SumOver(s, c, k, init), ShareSum(s, e, k, init), Expected(s, c, At(k, b)), Share(s, e, At(k, b)));
    }
  }

  lemma {:induction false} SumOverNothing(s: Settings, k: Key, r: seq<int>)
    requires IsCounter(k)
    ensures SumOver(s, [], k, r) == ZERO
    decreases |r|
  {
    hide Plus, At;
    if r != [] {
      SumOverNothing(s, k, r[..|r| - 1]);
      PlusLaws(ZERO, ZERO, ZERO, ZERO);
    }
  }

  /** Adding up a window's buckets counts each event of the window once. */
  lemma {:induction false} WindowSum(s: Settings, c: seq<ShareEvent>, k: Key, r: seq<int>, lo: int, hi: int)
    requires IsCounter(k) && Tiles(s.bucket, r, lo, hi)
    ensures SumOver(s, c, k, r) == WindowTally(s, c, k, lo, hi)
    decreases |c|
  {
    hide SumOver, ShareSum, Weight, Plus, Belongs, BucketStart;
    if c == [] {
      SumOverNothing(s, k, r);
    } else {
      var init, e := c[..|c| - 1], c[|c| - 1];
      WindowSum(s, init, k, r, lo, hi);
      assert c == init + [e];
      SumOverSnoc(s, init, e, k, r);
      ShareSumIs(s, e, k, r);
    }
  }

  // ---------- Many keys ----------

  /** The listed counters, added up. */
  function SumKeys(s: Settings, c: seq<ShareEvent>, ks: seq<Key>, lo: int, hi: int): Tally
    requires forall i | 0 <= i < |ks| :: IsCounter(ks[i])
  {
    if ks == [] then ZERO
    else Plus(SumKeys(s, c, ks[..|ks| - 1], lo, hi), WindowTally(s, c, ks[|ks| - 1], lo, hi))
  }

  /** How many of the listed counters an event is in. */
  function Listed(s: Settings, e: ShareEvent, ks: seq<Key>): nat
    requires forall i | 0 <= i < |ks| :: IsCounter(ks[i])
  {
    if ks == [] then 0 else Listed(s, e, ks[..|ks| - 1]) + if Belongs(s, e, ks[|ks| - 1]) then 1 else 0
  }

  /** Each event of the window as often as it is listed. */
  function Accounted(s: Settings, c: seq<ShareEvent>, ks: seq<Key>, lo: int, hi: int): Tally
    requires forall i | 0 <= i < |ks| :: IsCounter(ks[i])
  {
    if c == [] then ZERO
    else
      var e := c[|c| - 1];
      Plus(Accounted(s, c[..|c| - 1], ks, lo, hi), if InWindow(s, e, lo, hi) then Times(Listed(s, e, ks), Weight(e)) else ZERO)
  }

  lemma {:induction false} AccountedNoKeys(s: Settings, c: seq<ShareEvent>, lo: int, hi: int)
    ensures Accounted(s, c, [], lo, hi) == ZERO
    decreases |c|
  {
    hide InWindow, Weight, Plus;
    if c != [] {
      AccountedNoKeys(s, c[..|c| - 1], lo, hi);
      PlusLaws(ZERO, ZERO, ZERO, ZERO);
    }
  }

  lemma {:induction false} AccountedSnoc(s: Settings, c: seq<ShareEvent>, ks: seq<Key>, k: Key, lo: int, hi: int)
    requires IsCounter(k) && forall i | 0 <= i < |ks| :: IsCounter(ks[i])
    ensures Accounted(s, c, ks + [k], lo, hi) == Plus(Accounted(s, c, ks, lo, hi), WindowTally(s, c, k, lo, hi))
    decreases |c|
  {
    hide InWindow, Weight, Plus, Belongs;
    PlusLaws(ZERO, ZERO, ZERO, ZERO);
    if c != [] {
      var init, e := c[..|c| - 1], c[|c| - 1];
      AccountedSnoc(s, init, ks, k, lo, hi);
      assert (ks + [k])[..|ks|] == ks;
      var n := Listed(s, e, ks);
      var t := if InWindow(s, e, lo, hi) then Times(n, Weight(e)) else ZERO;
      PlusLaws(Accounted(s, init, ks, lo, hi), WindowTally(s, init, k, lo, hi), t, WindowShare(s, e, k, lo, hi));
      PlusLaws(t, ZERO, ZERO, ZERO);
    }
  }

  /** Whatever the names, the listed counters add up to the events, each as often as a
      listed counter is for it. */
  lemma {:induction false} Accounting(s: Settings, c: seq<ShareEvent>, ks: seq<Key>, lo: int, hi: int)
    requires forall i | 0 <= i < |ks| :: IsCounter(ks[i])
    ensures SumKeys(s, c, ks, lo, hi) == Accounted(s, c, ks, lo, hi)
    decreases |ks|
  {
    hide Accounted, WindowTally, Plus;
    if ks == [] {
      AccountedNoKeys(s, c, lo, hi);
    } else {
      var init, k := ks[..|ks| - 1], ks[|ks| - 1];
      Accounting(s, c, init, lo, hi);
      AccountedSnoc(s, c, init, k, lo, hi);
      assert init + [k] == ks;
    }
  }

  /** The events of the window that satisfy q. */
  function Satisfying(s: Settings, c: seq<ShareEvent>, q: ShareEvent -> bool, lo: int, hi: int): Tally {
    if c == [] then ZERO
    else
      var e := c[|c| - 1];
      Plus(Satisfying(s, c[..|c| - 1], q, lo, hi), if InWindow(s, e, lo, hi) && q(e) then Weight(e) else ZERO)
  }

  /** Nothing is lost and nothing counted twice when each event that should be listed is
      listed once, and no other. */
  lemma {:induction false} Conservation(s: Settings, c: seq<ShareEvent>, ks: seq<Key>, q: ShareEvent -> bool, lo: int, hi: int)
    requires forall i | 0 <= i < |ks| :: IsCounter(ks[i])
    requires forall e | e in c && InWindow(s, e, lo, hi) :: Listed(s, e, ks) == if q(e) then 1 else 0
    ensures SumKeys(s, c, ks, lo, hi) == Satisfying(s, c, q, lo, hi)
  {
    hide Accounted, Listed, Satisfying, InWindow;
    Accounting(s, c, ks, lo, hi);
    AccountedOnce(s, c, ks, q, lo, hi);
  }

  lemma {:induction false} AccountedOnce(s: Settings, c: seq<ShareEvent>, ks: seq<Key>, q: ShareEvent -> bool, lo: int, hi: int)
    requires forall i | 0 <= i < |ks| :: IsCounter(ks[i])
    requires forall e | e in c && InWindow(s, e, lo, hi) :: Listed(s, e, ks) == if q(e) then 1 else 0
    ensures Accounted(s, c, ks, lo, hi) == Satisfying(s, c, q, lo, hi)
    decreases |c|
  {
    hide Listed, InWindow, Weight, Plus;
    if c != [] {
      var e := c[|c| - 1];
      AccountedOnce(s, c[..|c| - 1], ks, q, lo, hi);
      assert e in c;
      TimesOne(Weight(e));
    }
  }

  lemma TimesOne(t: Tally)
    ensures Times(0, t) == ZERO && Times(1, t) == t
  {
    hide Plus;
    PlusLaws(t, ZERO, ZERO, ZERO);
  }

  // ---------- Counts are numbers of distinct events ----------

  predicate Unique(c: seq<ShareEvent>) {
    forall i, j | 0 <= i < j < |c| :: c[i] != c[j]
  }

  /** Deliveries carry ids, and equal ids are the same event: redelivery repeats an event
      as it was. */
  predicate ConsistentIds(s: Settings, h: seq<ShareEvent>) {
    && (forall i | 0 <= i < |h| :: !White(s, h[i].eventId))
    && (forall i, j | 0 <= i < |h| && 0 <= j < |h| :: h[i].eventId == h[j].eventId ==> h[i] == h[j])
  }

  /** Then the deliveries that count are the delivered events, each once. */
  lemma {:induction false} CountedOnce(s: Settings, h: seq<ShareEvent>)
    requires ConsistentIds(s, h)
    ensures Unique(Counted(s, h))
    ensures forall e :: e in Counted(s, h) <==> e in h && !White(s, e.poolId)
    decreases |h|
  {
    hide Encoded, BucketOf, White;
    if h != [] {
      var init, e := h[..|h| - 1], h[|h| - 1];
      assert h == init + [e];
      CountedOnce(s, init);
      var c := Counted(s, init);
      if e in c {
        var i :| 0 <= i < |c| && c[i] == e;
        assert Repeat(s, c, e);
      }
      if Repeat(s, c, e) {
        var i :| 0 <= i < |c| && c[i].eventId == e.eventId;
        assert c[i] in init && c[i] == e;
      }
    }
  }

  predicate InPoolWindow(s: Settings, e: ShareEvent, pool: string, lo: int, hi: int) {
    SamePool(s, e.poolId, pool) && InWindow(s, e, lo, hi)
  }

  const ACCEPTED: set<EventType> := {ShareAccepted, BlockCandidate, BlockAccepted}
  const REJECTED: set<EventType> := {ShareRejected, BlockRejected}
  const STALE: set<EventType> := {ShareStale}

  /** The events of some types in a pool's window. */
  function Events(s: Settings, c: seq<ShareEvent>, pool: string, lo: int, hi: int, types: set<EventType>): set<ShareEvent> {
    set e | e in c && InPoolWindow(s, e, pool, lo, hi) && e.eventType in types
  }

  /** The events of a counter in a window, of some types. */
  function EventsAt(s: Settings, c: seq<ShareEvent>, k: Key, lo: int, hi: int, types: set<EventType>): set<ShareEvent>
    requires IsCounter(k)
  {
    set e | e in c && InWindow(s, e, lo, hi) && Belongs(s, e, k) && e.eventType in types
  }

  /** The difficulties of a set of events together. */
  ghost function Difficulty(events: set<ShareEvent>): real {
    if events == {} then 0.0
    else
      var e :| e in events;
      Contribution(e) + Difficulty(events - {e})
  }

  /** Whichever event is taken first. */
  lemma {:induction false} DifficultyWith(events: set<ShareEvent>, x: ShareEvent)
    requires x in events
    ensures Difficulty(events) == Contribution(x) + Difficulty(events - {x})
    decreases events
  {
    hide Contribution;
    var e :| e in events && Difficulty(events) == Contribution(e) + Difficulty(events - {e});
    if e != x {
      DifficultyWith(events - {e}, x);
      DifficultyWith(events - {x}, e);
      assert events - {e} - {x} == events - {x} - {e};
    }
  }

  const ALL: set<EventType> := {ShareAccepted, ShareRejected, ShareStale, BlockCandidate, BlockAccepted, BlockRejected,
                                NewTemplate, PoolOnline, PoolOffline}

  lemma EventsAtSnoc(s: Settings, c: seq<ShareEvent>, e: ShareEvent, k: Key, lo: int, hi: int, types: set<EventType>)
    requires IsCounter(k) && e !in c
    ensures
      var was, now := EventsAt(s, c, k, lo, hi, types), EventsAt(s, c + [e], k, lo, hi, types);
      var b := InWindow(s, e, lo, hi) && Belongs(s, e, k) && e.eventType in types;
      && |now| == |was| + (if b then 1 else 0)
      && Difficulty(now) == Difficulty(was) + (if b then Contribution(e) else 0.0)
  {
    hide InWindow, Belongs, Contribution, Difficulty;
    var was, now := EventsAt(s, c, k, lo, hi, types), EventsAt(s, c + [e], k, lo, hi, types);
    if InWindow(s, e, lo, hi) && Belongs(s, e, k) && e.eventType in types {
      assert now == was + {e} && now - {e} == was;
      DifficultyWith(now, e);
    } else {
      assert now == was;
    }
  }

  lemma ShareCounts(s: Settings, e: ShareEvent, k: Key, lo: int, hi: int)
    requires IsCounter(k)
    ensures
      var t, b := WindowShare(s, e, k, lo, hi), InWindow(s, e, lo, hi) && Belongs(s, e, k);
      && t.total == (if b && e.eventType in ALL then 1 else 0)
      && t.accepted == (if b && e.eventType in ACCEPTED then 1 else 0)
      && t.rejected == (if b && e.eventType in REJECTED then 1 else 0)
      && t.stale == (if b && e.eventType in STALE then 1 else 0)
      && t.difficulty == (if b && e.eventType in ACCEPTED then Contribution(e) else 0.0)
  {
    hide InWindow, Belongs, WeightedDifficulty, Contribution;
    WeightedIsContribution(e);
  }

  lemma PlusFields(a: Tally, b: Tally)
    ensures
      var t := Plus(a, b);
      && t.total == a.total + b.total && t.accepted == a.accepted + b.accepted && t.rejected == a.rejected + b.rejected
      && t.stale == a.stale + b.stale && t.difficulty == a.difficulty + b.difficulty
  {
  }

  /** What a counter says of a set of events: how many there are of which types, and their
      difficulties. */
  ghost predicate Describes(s: Settings, c: seq<ShareEvent>, k: Key, lo: int, hi: int, t: Tally)
    requires IsCounter(k)
  {
    && t.total == |EventsAt(s, c, k, lo, hi, ALL)|
    && t.accepted == |EventsAt(s, c, k, lo, hi, {ShareAccepted, BlockCandidate, BlockAccepted})|
    && t.rejected == |EventsAt(s, c, k, lo, hi, {ShareRejected, BlockRejected})|
    && t.stale == |EventsAt(s, c, k, lo, hi, {ShareStale})|
    && t.difficulty == Difficulty(EventsAt(s, c, k, lo, hi, {ShareAccepted, BlockCandidate, BlockAccepted}))
  }

  /** A counter over a window, a pool's, a miner's or a worker's, says how many distinct
      events there are, and what their difficulties are together. */
  lemma {:induction false} CounterDescribes(s: Settings, c: seq<ShareEvent>, k: Key, lo: int, hi: int)
    requires Unique(c) && IsCounter(k)
    ensures Describes(s, c, k, lo, hi, WindowTally(s, c, k, lo, hi))
    decreases |c|
  {
    hide EventsAt, InWindow, Belongs, WindowShare, Plus, Difficulty, Contribution;
    if c == [] {
      NoEvents(s, k, lo, hi);
    } else {
      var init, e := c[..|c| - 1], c[|c| - 1];
      CounterDescribes(s, init, k, lo, hi);
      ShareCounts(s, e, k, lo, hi);
      PlusFields(WindowTally(s, init, k, lo, hi), WindowShare(s, e, k, lo, hi));
      assert c == init + [e] && e !in init;
      EventsAtSnoc(s, init, e, k, lo, hi, ALL);
      EventsAtSnoc(s, init, e, k, lo, hi, ACCEPTED);
      EventsAtSnoc(s, init, e, k, lo, hi, REJECTED);
      EventsAtSnoc(s, init, e, k, lo, hi, STALE);
    }
  }

  lemma NoEvents(s: Settings, k: Key, lo: int, hi: int)
    requires IsCounter(k)
    ensures forall types: set<EventType> ::
      |EventsAt(s, [], k, lo, hi, types)| == 0 && Difficulty(EventsAt(s, [], k, lo, hi, types)) == 0.0
  {
    forall types: set<EventType> ensures EventsAt(s, [], k, lo, hi, types) == {} {
      assert EventsAt(s, [], k, lo, hi, types) == {};
    }
  }

  /** A pool's counters over a window are numbers of distinct events. */
  lemma WindowCounts(s: Settings, c: seq<ShareEvent>, pool: string, lo: int, hi: int)
    requires Unique(c)
    ensures
      var t := WindowTally(s, c, PoolBucket(pool, 0), lo, hi);
      && t.total == |Events(s, c, pool, lo, hi, ALL)|
      && t.accepted == |Events(s, c, pool, lo, hi, {ShareAccepted, BlockCandidate, BlockAccepted})|
      && t.rejected == |Events(s, c, pool, lo, hi, {ShareRejected, BlockRejected})|
      && t.stale == |Events(s, c, pool, lo, hi, {ShareStale})|
      && t.difficulty == Difficulty(Events(s, c, pool, lo, hi, {ShareAccepted, BlockCandidate, BlockAccepted}))
  {
    hide WindowTally, Difficulty, Events, EventsAt;
    CounterDescribes(s, c, PoolBucket(pool, 0), lo, hi);
    forall types: set<EventType> ensures EventsAt(s, c, PoolBucket(pool, 0), lo, hi, types) == Events(s, c, pool, lo, hi, types) {
      PoolEvents(s, c, pool, lo, hi, types);
    }
  }

  lemma PoolEvents(s: Settings, c: seq<ShareEvent>, pool: string, lo: int, hi: int, types: set<EventType>)
    ensures EventsAt(s, c, PoolBucket(pool, 0), lo, hi, types) == Events(s, c, pool, lo, hi, types)
  {
    hide Encoded, BucketOf;
    forall e ensures Belongs(s, e, PoolBucket(pool, 0)) <==> SamePool(s, e.poolId, pool) {}
  }

  /** A window holds every event created in it and, past the epoch, none created before
      the start of its first bucket. */
  lemma WindowReaches(s: Settings, e: ShareEvent, from: int, to: int)
    ensures from <= e.created <= to ==> InWindow(s, e, BucketStart(s.bucket, from), BucketStart(s.bucket, to))
    ensures InWindow(s, e, BucketStart(s.bucket, from), BucketStart(s.bucket, to)) && BucketStart(s.bucket, from) > 0 ==>
      e.created >= BucketStart(s.bucket, from) * 1000
  {
    hide BucketStart;
    if from <= e.created <= to {
      StartOrder(s.bucket, from, e.created);
      StartOrder(s.bucket, e.created, to);
    }
    StartIsMultiple(s.bucket, e.created);
  }

  lemma Removed<T>(d: seq<T>, i: nat, x: T)
    requires i < |d| && forall j, k | 0 <= j < k < |d| :: d[j] != d[k]
    ensures x in d[..i] + d[i + 1..] <==> x in d && x != d[i]
  {
    assert d == d[..i] + [d[i]] + d[i + 1..];
  }

  lemma RemovedUnique<T>(d: seq<T>, i: nat)
    requires i < |d| && forall j, k | 0 <= j < k < |d| :: d[j] != d[k]
    ensures var r := d[..i] + d[i + 1..]; forall j, k | 0 <= j < k < |r| :: r[j] != r[k]
  {
    var r := d[..i] + d[i + 1..];
    forall j, k | 0 <= j < k < |r| ensures r[j] != r[k] {
      assert r[j] == d[if j < i then j else j + 1] && r[k] == d[if k < i then k else k + 1];
    }
  }

  /** Two histories with the same events at a key give it the same counter. */
  lemma {:induction false} SameEventsSameCounter(s: Settings, c: seq<ShareEvent>, d: seq<ShareEvent>, k: Key)
    requires Unique(c) && Unique(d)
    requires forall e | Hits(s, e, k) :: e in c <==> e in d
    ensures Expected(s, c, k) == Expected(s, d, k)
    decreases |c|
  {
    hide Hits, Weight, Plus;
    PlusLaws(ZERO, ZERO, ZERO, ZERO);
    if c == [] {
      ExpectedZero(s, d, k);
    } else {
      var init, e := c[..|c| - 1], c[|c| - 1];
      assert c == init + [e] && e !in init;
      PlusLaws(Expected(s, init, k), ZERO, ZERO, ZERO);
      if Hits(s, e, k) {
        var i :| 0 <= i < |d| && d[i] == e;
        var d' := d[..i] + d[i + 1..];
        RemovedUnique(d, i);
        forall x ensures x in d' <==> x in d && x != e { Removed(d, i, x); }
        SameEventsSameCounter(s, init, d', k);
        ExpectedRemove(s, d, i, k);
      } else {
        SameEventsSameCounter(s, init, d, k);
      }
    }
  }

  lemma {:induction false} ExpectedZero(s: Settings, d: seq<ShareEvent>, k: Key)
    requires forall e | e in d :: !Hits(s, e, k)
    ensures Expected(s, d, k) == ZERO
    decreases |d|
  {
    hide Hits, Weight, Plus;
    PlusLaws(ZERO, ZERO, ZERO, ZERO);
    if d != [] {
      assert d[|d| - 1] in d;
      ExpectedZero(s, d[..|d| - 1], k);
    }
  }

  lemma {:induction false} ExpectedRemove(s: Settings, d: seq<ShareEvent>, i: nat, k: Key)
    requires i < |d|
    ensures Expected(s, d, k) == Plus(Expected(s, d[..i] + d[i + 1..], k), Share(s, d[i], k))
    decreases |d|
  {
    hide Share, Plus;
    var init, e := d[..|d| - 1], d[|d| - 1];
    if i == |d| - 1 {
      assert d[..i] + d[i + 1..] == init;
    } else {
      ExpectedRemove(s, init, i, k);
      assert d[..i] + d[i + 1..] == (init[..i] + init[i + 1..]) + [e];
      ExpectedSnoc(s, init[..i] + init[i + 1..], e, k);
      PlusLaws(Expected(s, init[..i] + init[i + 1..], k), Share(s, d[i], k), Share(s, e, k), ZERO);
      PlusLaws(Share(s, e, k), ZERO, ZERO, ZERO);
      PlusLaws(Share(s, d[i], k), ZERO, ZERO, ZERO);
    }
  }
}
