/** What the live counters ought to hold: events, buckets and windows, with no store in
    sight (RedisLiveStateWriter, LiveBucketCalculator). */
module LiveCounters {
  import opened Contracts
  import opened KeyNames

  type Positive = n: int | 1 <= n witness 1

  /** Seconds a key lives, seconds a bucket covers. */
  datatype Settings = Settings(cc: CharClass, ttl: Positive, bucket: Positive)

  // ---------- Tallies ----------

  datatype Tally = Tally(total: nat, accepted: nat, rejected: nat, stale: nat, difficulty: real)

  const ZERO := Tally(0, 0, 0, 0, 0.0)

  function Plus(a: Tally, b: Tally): Tally {
    Tally(a.total + b.total, a.accepted + b.accepted, a.rejected + b.rejected, a.stale + b.stale,
          a.difficulty + b.difficulty)
  }

  function Times(n: nat, t: Tally): Tally {
    if n == 0 then ZERO else Plus(Times(n - 1, t), t)
  }

  function WeightedDifficulty(e: ShareEvent): real {
    (if e.difficulty > 0.0 then e.difficulty else 0.0) * (if e.shareMultiplier > 0.0 then e.shareMultiplier else 1.0)
  }

  /** What an accepted event adds to a difficulty: its own, times its multiplier if that is
      positive; nothing unless its difficulty is positive. */
  function Contribution(e: ShareEvent): real {
    if e.difficulty > 0.0 && e.shareMultiplier > 0.0 then e.difficulty * e.shareMultiplier
    else if e.difficulty > 0.0 then e.difficulty
    else 0.0
  }

  lemma WeightedIsContribution(e: ShareEvent)
    ensures WeightedDifficulty(e) == Contribution(e)
  {
    if e.difficulty <= 0.0 {
      NothingTimes(if e.shareMultiplier > 0.0 then e.shareMultiplier else 1.0);
    }
  }

  lemma NothingTimes(m: real)
    ensures 0.0 * m == 0.0
  {
  }

  const ONE := Tally(1, 0, 0, 0, 0.0)

  /** What one event adds to each of its counters, one field after the other. */
  function Entries(e: ShareEvent): seq<Tally> {
    match e.eventType
    case ShareAccepted | BlockCandidate | BlockAccepted =>
      [ONE, Tally(0, 1, 0, 0, 0.0), Tally(0, 0, 0, 0, WeightedDifficulty(e))]
    case ShareStale => [ONE, Tally(0, 0, 0, 1, 0.0)]
    case ShareRejected | BlockRejected => [ONE, Tally(0, 0, 1, 0, 0.0)]
    case _ => [ONE]
  }

  function Total(ts: seq<Tally>): Tally {
    if ts == [] then ZERO else Plus(Total(ts[..|ts| - 1]), ts[|ts| - 1])
  }

  function Weight(e: ShareEvent): Tally {
    var t := e.eventType;
    var good := t.ShareAccepted? || t.BlockCandidate? || t.BlockAccepted?;
    Tally(1, if good then 1 else 0, if t.ShareRejected? || t.BlockRejected? then 1 else 0,
          if t.ShareStale? then 1 else 0, if good then WeightedDifficulty(e) else 0.0)
  }

  lemma TotalSnoc(ts: seq<Tally>, t: Tally)
    ensures Total(ts + [t]) == Plus(Total(ts), t)
  {
    assert (ts + [t])[..|ts|] == ts;
  }

  lemma TotalNone()
    ensures Total([]) == ZERO
  {
  }

  lemma PlusZero(t: Tally)
    ensures Plus(t, ZERO) == t == Plus(ZERO, t)
  {
  }

  lemma TotalOfUpToThree(a: Tally, b: Tally, c: Tally)
    ensures Total([a]) == a && Total([a, b]) == Plus(a, b) && Total([a, b, c]) == Plus(Plus(a, b), c)
  {
    hide Total, Plus;
    TotalNone();
    PlusZero(a);
    assert [a] == [] + [a] && [a, b] == [a] + [b] && [a, b, c] == [a, b] + [c];
    TotalSnoc([], a);
    TotalSnoc([a], b);
    TotalSnoc([a, b], c);
  }

  lemma PlusIs(a: Tally, b: Tally, t: Tally)
    requires t.total == a.total + b.total && t.accepted == a.accepted + b.accepted
    requires t.rejected == a.rejected + b.rejected && t.stale == a.stale + b.stale
    requires t.difficulty == a.difficulty + b.difficulty
    ensures Plus(a, b) == t
  {
  }

  /** Field by field, an event adds its weight. */
  lemma EntriesWeigh(e: ShareEvent)
    ensures Total(Entries(e)) == Weight(e)
  {
    hide WeightedDifficulty, Total, Plus;
    var s, d := Entries(e), WeightedDifficulty(e);
    PlusIs(ONE, Tally(0, 1, 0, 0, 0.0), Tally(1, 1, 0, 0, 0.0));
    PlusIs(Tally(1, 1, 0, 0, 0.0), Tally(0, 0, 0, 0, d), Tally(1, 1, 0, 0, d));
    PlusIs(ONE, Tally(0, 0, 0, 1, 0.0), Tally(1, 0, 0, 1, 0.0));
    PlusIs(ONE, Tally(0, 0, 1, 0, 0.0), Tally(1, 0, 1, 0, 0.0));
    TotalOfUpToThree(s[0], if |s| > 1 then s[1] else ZERO, if |s| > 2 then s[2] else ZERO);
  }

  // ---------- Buckets ----------

  /** The remainder of C#, which takes the sign of the dividend. */
  function Remainder(a: int, b: Positive): int {
    if a >= 0 then a % b else -((-a) % b)
  }

  /** Times are milliseconds from the Unix epoch, buckets seconds. */
  function BucketStart(bucket: Positive, ms: int): int {
    ms / 1000 - Remainder(ms / 1000, bucket)
  }

  function Quotient(bucket: Positive, ms: int): int {
    if ms / 1000 >= 0 then (ms / 1000) / bucket else -((-(ms / 1000)) / bucket)
  }

  lemma Divide(n: nat, b: Positive)
    ensures n - n % b == b * (n / b) && 0 <= n % b < b
  {
  }

  lemma {:induction false} MulOrder(b: Positive, x: int, y: int)
    requires x <= y
    ensures b * x <= b * y
    ensures x < y ==> b * x + b <= b * y
    decreases y - x
  {
    if x < y {
      MulOrder(b, x, y - 1);
      assert b * (y - 1) == b * y - b;
    }
  }

  lemma MulNeg(b: Positive, x: int)
    ensures b * -x == -(b * x)
  {
  }

  lemma StartIsMultiple(bucket: Positive, ms: int)
    ensures BucketStart(bucket, ms) == bucket * Quotient(bucket, ms)
    ensures BucketStart(bucket, ms) > 0 || ms >= 0 ==>
      BucketStart(bucket, ms) >= 0 && BucketStart(bucket, ms) <= ms / 1000 < BucketStart(bucket, ms) + bucket
    ensures ms < 0 ==> ms / 1000 <= BucketStart(bucket, ms) < ms / 1000 + bucket
  {
    var s := ms / 1000;
    if s >= 0 {
      Divide(s, bucket);
      MulOrder(bucket, 0, s / bucket);
    } else {
      Divide(-s, bucket);
      MulNeg(bucket, (-s) / bucket);
      MulOrder(bucket, 0, (-s) / bucket);
    }
  }

  /** Starts never decrease with time. */
  lemma StartOrder(bucket: Positive, ms: int, later: int)
    requires ms <= later
    ensures BucketStart(bucket, ms) <= BucketStart(bucket, later)
  {
    hide Quotient, BucketStart;
    StartIsMultiple(bucket, ms);
    StartIsMultiple(bucket, later);
    var q, r := Quotient(bucket, ms), Quotient(bucket, later);
    if r < q {
      MulOrder(bucket, r, q);
      MulOrder(bucket, q, 0);
    }
  }

  function BucketOf(s: Settings, e: ShareEvent): int {
    BucketStart(s.bucket, e.created)
  }

  // ---------- Which deliveries count ----------

  predicate White(s: Settings, name: string) {
    AllWhite(s.cc, name)
  }

  predicate SamePool(s: Settings, a: string, b: string) {
    Encoded(s.cc, a) == Encoded(s.cc, b)
  }

  /** Some counted event has this one's id, pool and bucket. Blank ids never repeat. */
  predicate Repeat(s: Settings, counted: seq<ShareEvent>, e: ShareEvent) {
    && !White(s, e.eventId)
    && exists i :: 0 <= i < |counted| && counted[i].eventId == e.eventId
        && SamePool(s, counted[i].poolId, e.poolId) && BucketOf(s, counted[i]) == BucketOf(s, e)
  }

  function Next(s: Settings, counted: seq<ShareEvent>, e: ShareEvent): seq<ShareEvent> {
    if White(s, e.poolId) || Repeat(s, counted, e) then counted else counted + [e]
  }

  /** The deliveries that count, after those that counted before. */
  function NextAll(s: Settings, counted: seq<ShareEvent>, h: seq<ShareEvent>): seq<ShareEvent> {
    if h == [] then counted else Next(s, NextAll(s, counted, h[..|h| - 1]), h[|h| - 1])
  }

  /** The deliveries that count, of all deliveries in order. */
  function Counted(s: Settings, h: seq<ShareEvent>): seq<ShareEvent> {
    NextAll(s, [], h)
  }

  lemma {:induction false} NextAllAppend(s: Settings, counted: seq<ShareEvent>, h: seq<ShareEvent>, more: seq<ShareEvent>)
    ensures NextAll(s, NextAll(s, counted, h), more) == NextAll(s, counted, h + more)
    decreases |more|
  {
    hide Next;
    if more == [] {
      assert h + more == h;
    } else {
      NextAllAppend(s, counted, h, more[..|more| - 1]);
      assert (h + more)[..|h + more| - 1] == h + more[..|more| - 1];
    }
  }

  // ---------- What the keys ought to hold ----------

  predicate IsCounter(k: Key) {
    k.PoolBucket? || k.MinerBucket? || k.WorkerBucket?
  }

  predicate IsMembers(k: Key) {
    k.SeenEvents? || k.BucketMiners? || k.BucketWorkers?
  }

  predicate HasMiner(s: Settings, e: ShareEvent) {
    !White(s, e.miner)
  }

  predicate HasWorker(s: Settings, e: ShareEvent) {
    !White(s, e.miner) && !White(s, e.worker)
  }

  predicate Hits(s: Settings, e: ShareEvent, k: Key) {
    match k
    case PoolBucket(p, b) => SamePool(s, e.poolId, p) && BucketOf(s, e) == b
    case MinerBucket(p, m, b) => SamePool(s, e.poolId, p) && BucketOf(s, e) == b && HasMiner(s, e) && SamePool(s, e.miner, m)
    case WorkerBucket(p, m, w, b) =>
      SamePool(s, e.poolId, p) && BucketOf(s, e) == b && HasWorker(s, e) && SamePool(s, e.miner, m) && SamePool(s, e.worker, w)
    case _ => false
  }

  function Share(s: Settings, e: ShareEvent, k: Key): Tally {
    if Hits(s, e, k) then Weight(e) else ZERO
  }

  /** The counter at a key: the sum over the counted events the key is for. */
  function Expected(s: Settings, counted: seq<ShareEvent>, k: Key): Tally {
    if counted == [] then ZERO
    else Plus(Expected(s, counted[..|counted| - 1], k), Share(s, counted[|counted| - 1], k))
  }

  function Put(s: Settings, e: ShareEvent, k: Key): set<string> {
    match k
    case SeenEvents(p, b) =>
      if SamePool(s, e.poolId, p) && BucketOf(s, e) == b && !White(s, e.eventId) then {e.eventId} else {}
    case BucketMiners(p, b) =>
      if SamePool(s, e.poolId, p) && BucketOf(s, e) == b && HasMiner(s, e) then {e.miner} else {}
    case BucketWorkers(p, b) =>
      if SamePool(s, e.poolId, p) && BucketOf(s, e) == b && HasWorker(s, e) then {e.miner + "\t" + e.worker} else {}
    case _ => {}
  }

  /** The set at a key. */
  function SetOf(s: Settings, counted: seq<ShareEvent>, k: Key): set<string> {
    if counted == [] then {}
    else SetOf(s, counted[..|counted| - 1], k) + Put(s, counted[|counted| - 1], k)
  }

  lemma ExpectedSnoc(s: Settings, c: seq<ShareEvent>, e: ShareEvent, k: Key)
    ensures Expected(s, c + [e], k) == Plus(Expected(s, c, k), Share(s, e, k))
    ensures SetOf(s, c + [e], k) == SetOf(s, c, k) + Put(s, e, k)
  {
    hide Share, Put;
    assert (c + [e])[..|c|] == c;
  }

  lemma {:induction false} InSetOf(s: Settings, c: seq<ShareEvent>, k: Key, x: string)
    ensures x in SetOf(s, c, k) <==> exists i :: 0 <= i < |c| && x in Put(s, c[i], k)
    decreases |c|
  {
    hide Put;
    if c != [] {
      InSetOf(s, c[..|c| - 1], k, x);
      assert x in Put(s, c[|c| - 1], k) ==> x in SetOf(s, c, k);
    }
  }

  /** Looking the id up in the set of seen ids is looking for an equal counted event. */
  lemma SeenIsRepeat(s: Settings, c: seq<ShareEvent>, e: ShareEvent)
    requires !White(s, e.eventId)
    ensures e.eventId in SetOf(s, c, SeenEvents(e.poolId, BucketOf(s, e))) <==> Repeat(s, c, e)
  {
    hide Encoded, White, BucketOf;
    InSetOf(s, c, SeenEvents(e.poolId, BucketOf(s, e)), e.eventId);
    if Repeat(s, c, e) {
      var i :| 0 <= i < |c| && c[i].eventId == e.eventId
        && SamePool(s, c[i].poolId, e.poolId) && BucketOf(s, c[i]) == BucketOf(s, e);
      assert e.eventId in Put(s, c[i], SeenEvents(e.poolId, BucketOf(s, e)));
    }
  }
}
