/** RedisLiveStateWriter over a store whose keys expire while time passes: the counters
    and sets it keeps are those of LiveCounters, for every bucket not yet past its life. */
module LiveState {
  import opened Contracts
  import opened Cancellation
  import opened Dedup
  import opened KeyNames
  import opened LiveCounters
  import opened LiveListing
  import opened LiveWindows

  // ---------- A store with expiry ----------

  datatype Expiring<V> = Expiring(value: V, until: Option<int>)

  predicate Alive<V>(x: Expiring<V>, now: int) {
    x.until.None? || now < x.until.value
  }

  function Get<V>(m: map<string, Expiring<V>>, name: string, now: int, none: V): V {
    if name in m && Alive(m[name], now) then m[name].value else none
  }

  /** Writing keeps the expiry of a live key; a key written anew has none. */
  function Set<V>(m: map<string, Expiring<V>>, name: string, now: int, v: V): map<string, Expiring<V>> {
    m[name := Expiring(v, if name in m && Alive(m[name], now) then m[name].until else None)]
  }

  function Expire<V>(m: map<string, Expiring<V>>, name: string, now: int, until: int): map<string, Expiring<V>> {
    if name in m && Alive(m[name], now) then m[name := m[name].(until := Some(until))] else m
  }

  /** Up to the deadline the key holds the value and will not expire. */
  ghost predicate Holds<V>(m: map<string, Expiring<V>>, name: string, deadline: int, now: int, v: V, none: V) {
    now < deadline ==>
      && Get(m, name, now, none) == v
      && (name in m && Alive(m[name], now) && m[name].until.Some? ==> deadline <= m[name].until.value)
  }

  lemma HoldsLater<V>(m: map<string, Expiring<V>>, name: string, deadline: int, now: int, later: int, v: V, none: V)
    requires Holds(m, name, deadline, now, v, none) && now <= later
    ensures Holds(m, name, deadline, later, v, none)
  {
  }

  class Redis {
    var clock: int
    var hashes: map<string, Expiring<Tally>>
    var members: map<string, Expiring<set<string>>>

    constructor (now: int)
      ensures clock == now && hashes == map[] && members == map[]
    {
      clock, hashes, members := now, map[], map[];
    }

    /** Time passes before every operation. */
    method Pass()
      modifies `clock
      ensures old(clock) <= clock
    {
      var ms: int := *;
      if ms > 0 { clock := clock + ms; }
    }

    method HashIncrementAsync(key: string, d: Tally)
      modifies `clock, `hashes
      ensures old(clock) <= clock
      ensures hashes == Set(old(hashes), key, clock, Plus(Get(old(hashes), key, clock, ZERO), d))
    {
      Pass();
      hashes := Set(hashes, key, clock, Plus(Get(hashes, key, clock, ZERO), d));
    }

    method HashGetAllAsync(key: string) returns (r: Tally)
      modifies `clock
      ensures old(clock) <= clock && r == Get(hashes, key, clock, ZERO)
    {
      Pass();
      r := Get(hashes, key, clock, ZERO);
    }

    method SetAddAsync(key: string, value: string) returns (added: bool)
      modifies `clock, `members
      ensures old(clock) <= clock
      ensures added == (value !in Get(old(members), key, clock, {}))
      ensures members == Set(old(members), key, clock, Get(old(members), key, clock, {}) + {value})
    {
      Pass();
      var was := Get(members, key, clock, {});
      added := value !in was;
      members := Set(members, key, clock, was + {value});
    }

    /** The members in some order. */
    method SetMembersAsync(key: string) returns (r: seq<string>)
      modifies `clock
      ensures old(clock) <= clock
      ensures forall x :: x in r <==> x in Get(members, key, clock, {})
    {
      Pass();
      r := [];
      var left := Get(members, key, clock, {});
      while left != {}
        invariant forall x :: x in r || x in left <==> x in Get(members, key, clock, {})
        decreases left
      {
        var x :| x in left;
        r, left := r + [x], left - {x};
      }
    }

    method KeyExpireAsync(key: string, ms: nat)
      modifies `clock, `hashes, `members
      ensures old(clock) <= clock
      ensures hashes == Expire(old(hashes), key, clock, clock + ms)
      ensures members == Expire(old(members), key, clock, clock + ms)
    {
      Pass();
      hashes := Expire(hashes, key, clock, clock + ms);
      members := Expire(members, key, clock, clock + ms);
    }

    /** KEYS and DEL with a pattern that is a prefix and `*`. */
    method DeleteKeysByPrefix(prefix: string)
      modifies `clock, `hashes, `members
      ensures old(clock) <= clock
      ensures forall name :: name in hashes <==> name in old(hashes) && !(prefix <= name)
      ensures forall name | name in hashes :: hashes[name] == old(hashes)[name]
      ensures forall name :: name in members <==> name in old(members) && !(prefix <= name)
      ensures forall name | name in members :: members[name] == old(members)[name]
    {
      Pass();
      hashes := map name | name in hashes && !(prefix <= name) :: hashes[name];
      members := map name | name in members && !(prefix <= name) :: members[name];
    }
  }

  // ---------- The keys and what they hold ----------

  predicate Timed(k: Key) {
    IsCounter(k) || IsMembers(k)
  }

  /** The moment until which a bucket's keys are sure to live, in milliseconds. */
  function Deadline(s: Settings, bucket: int): int {
    (bucket + s.ttl) * 1000
  }

  ghost predicate Covered(s: Settings, pools: set<string>, k: Key)
    requires Timed(k)
  {
    k.timestamp > 0 && Encoded(s.cc, k.pool) in pools
  }

  /** Increments and additions already made for an event not yet among the counted. */
  datatype Delta = Delta(key: Key, weight: Tally)

  datatype Addition = Addition(key: Key, value: string)

  function Logged(cc: CharClass, log: seq<Delta>, k: Key): Tally {
    if log == [] then ZERO
    else
      var d := log[|log| - 1];
      Plus(Logged(cc, log[..|log| - 1], k), if KeyName(cc, d.key) == KeyName(cc, k) then d.weight else ZERO)
  }

  function LoggedSet(cc: CharClass, log: seq<Addition>, k: Key): set<string> {
    if log == [] then {}
    else
      var a := log[|log| - 1];
      LoggedSet(cc, log[..|log| - 1], k) + if KeyName(cc, a.key) == KeyName(cc, k) then {a.value} else {}
  }

  ghost predicate CountersHold(s: Settings, pools: set<string>, m: map<string, Expiring<Tally>>,
                               c: seq<ShareEvent>, log: seq<Delta>, now: int) {
    forall k: Key :: IsCounter(k) && Covered(s, pools, k) ==>
      Holds(m, KeyName(s.cc, k), Deadline(s, k.timestamp), now, Plus(Expected(s, c, k), Logged(s.cc, log, k)), ZERO)
  }

  ghost predicate MembersHold(s: Settings, pools: set<string>, m: map<string, Expiring<set<string>>>,
                              c: seq<ShareEvent>, log: seq<Addition>, now: int) {
    forall k: Key :: IsMembers(k) && Covered(s, pools, k) ==>
      Holds(m, KeyName(s.cc, k), Deadline(s, k.timestamp), now, SetOf(s, c, k) + LoggedSet(s.cc, log, k), {})
  }

  lemma LoggedSnoc(cc: CharClass, log: seq<Delta>, d: Delta, k: Key)
    ensures Logged(cc, log + [d], k)
         == Plus(Logged(cc, log, k), if KeyName(cc, d.key) == KeyName(cc, k) then d.weight else ZERO)
  {
    hide KeyName;
    assert (log + [d])[..|log|] == log;
  }

  lemma LoggedSetSnoc(cc: CharClass, log: seq<Addition>, a: Addition, k: Key)
    ensures LoggedSet(cc, log + [a], k)
         == LoggedSet(cc, log, k) + if KeyName(cc, a.key) == KeyName(cc, k) then {a.value} else {}
  {
    hide KeyName;
    assert (log + [a])[..|log|] == log;
  }

  /** Time alone breaks nothing. */
  lemma CountersLater(s: Settings, pools: set<string>, m: map<string, Expiring<Tally>>, c: seq<ShareEvent>,
                      log: seq<Delta>, now: int, later: int)
    requires CountersHold(s, pools, m, c, log, now) && now <= later
    ensures CountersHold(s, pools, m, c, log, later)
  {
    hide KeyName, Expected, Logged, Plus, Holds;
    forall k: Key | IsCounter(k) && Covered(s, pools, k)
      ensures Holds(m, KeyName(s.cc, k), Deadline(s, k.timestamp), later, Plus(Expected(s, c, k), Logged(s.cc, log, k)), ZERO)
    {
      HoldsLater(m, KeyName(s.cc, k), Deadline(s, k.timestamp), now, later, Plus(Expected(s, c, k), Logged(s.cc, log, k)), ZERO);
    }
  }

  lemma MembersLater(s: Settings, pools: set<string>, m: map<string, Expiring<set<string>>>, c: seq<ShareEvent>,
                     log: seq<Addition>, now: int, later: int)
    requires MembersHold(s, pools, m, c, log, now) && now <= later
    ensures MembersHold(s, pools, m, c, log, later)
  {
    hide KeyName, SetOf, LoggedSet, Holds;
    forall k: Key | IsMembers(k) && Covered(s, pools, k)
      ensures Holds(m, KeyName(s.cc, k), Deadline(s, k.timestamp), later, SetOf(s, c, k) + LoggedSet(s.cc, log, k), {})
    {
      HoldsLater(m, KeyName(s.cc, k), Deadline(s, k.timestamp), now, later, SetOf(s, c, k) + LoggedSet(s.cc, log, k), {});
    }
  }

  lemma StartDelta(s: Settings, pools: set<string>, m: map<string, Expiring<Tally>>, c: seq<ShareEvent>,
                   log: seq<Delta>, now: int, key: Key)
    requires CountersHold(s, pools, m, c, log, now)
    ensures CountersHold(s, pools, m, c, log + [Delta(key, ZERO)], now)
  {
    hide KeyName, Expected, Logged, Holds;
    forall k: Key | IsCounter(k) && Covered(s, pools, k)
      ensures Logged(s.cc, log + [Delta(key, ZERO)], k) == Logged(s.cc, log, k)
    {
      LoggedSnoc(s.cc, log, Delta(key, ZERO), k);
    }
  }

  lemma HoldsSet<V>(m: map<string, Expiring<V>>, name: string, other: string, deadline: int, now: int, v: V, w: V, none: V)
    requires Holds(m, other, deadline, now, v, none)
    ensures Holds(Set(m, name, now, w), other, deadline, now, if name == other then w else v, none)
    ensures now < deadline ==> Get(m, other, now, none) == v
  {
  }

  lemma HoldsNot<V>(m: map<string, Expiring<V>>, name: string, deadline: int, now: int, v: V, w: V, none: V)
    requires Holds(m, name, deadline, now, v, none) && (now < deadline ==> v == w)
    ensures Holds(m, name, deadline, now, w, none)
  {
  }

  lemma PlusAssoc(a: Tally, b: Tally, d: Tally)
    ensures Plus(Plus(a, b), d) == Plus(a, Plus(b, d)) && Plus(a, ZERO) == a == Plus(ZERO, a)
  {
  }

  lemma Increment(s: Settings, pools: set<string>, m: map<string, Expiring<Tally>>, c: seq<ShareEvent>,
                  log: seq<Delta>, now: int, key: Key, t: Tally, d: Tally)
    requires CountersHold(s, pools, m, c, log + [Delta(key, t)], now)
    ensures
      var name := KeyName(s.cc, key);
      CountersHold(s, pools, Set(m, name, now, Plus(Get(m, name, now, ZERO), d)), c, log + [Delta(key, Plus(t, d))], now)
  {
    hide KeyName, Expected, Logged, Holds, Get, Plus, Set;
    var name := KeyName(s.cc, key);
    forall k: Key | IsCounter(k) && Covered(s, pools, k)
      ensures Holds(Set(m, name, now, Plus(Get(m, name, now, ZERO), d)), KeyName(s.cc, k), Deadline(s, k.timestamp), now,
                    Plus(Expected(s, c, k), Logged(s.cc, log + [Delta(key, Plus(t, d))], k)), ZERO)
    {
      var e, l := Expected(s, c, k), Logged(s.cc, log, k);
      var d' := if name == KeyName(s.cc, k) then d else ZERO;
      var t' := if name == KeyName(s.cc, k) then t else ZERO;
      LoggedSnoc(s.cc, log, Delta(key, t), k);
      LoggedSnoc(s.cc, log, Delta(key, Plus(t, d)), k);
      var v, w := Plus(e, Plus(l, t')), Plus(Get(m, name, now, ZERO), d);
      var deadline, other := Deadline(s, k.timestamp), KeyName(s.cc, k);
      HoldsSet(m, name, other, deadline, now, v, w, ZERO);
      PlusAssoc(e, Plus(l, t'), d');
      PlusAssoc(l, t', d');
      PlusAssoc(v, t', d');
      HoldsNot(Set(m, name, now, w), other, deadline, now, if name == other then w else v, Plus(v, d'), ZERO);
    }
  }

  lemma Add(s: Settings, pools: set<string>, m: map<string, Expiring<set<string>>>, c: seq<ShareEvent>,
            log: seq<Addition>, now: int, key: Key, x: string)
    requires MembersHold(s, pools, m, c, log, now)
    ensures
      var name := KeyName(s.cc, key);
      MembersHold(s, pools, Set(m, name, now, Get(m, name, now, {}) + {x}), c, log + [Addition(key, x)], now)
  {
    hide KeyName, SetOf, LoggedSet, Holds, Get, Set;
    var name := KeyName(s.cc, key);
    forall k: Key | IsMembers(k) && Covered(s, pools, k)
      ensures Holds(Set(m, name, now, Get(m, name, now, {}) + {x}), KeyName(s.cc, k), Deadline(s, k.timestamp), now,
                    SetOf(s, c, k) + LoggedSet(s.cc, log + [Addition(key, x)], k), {})
    {
      var v, l := SetOf(s, c, k), LoggedSet(s.cc, log, k);
      var x' := if name == KeyName(s.cc, k) then {x} else {};
      LoggedSetSnoc(s.cc, log, Addition(key, x), k);
      var w := Get(m, name, now, {}) + {x};
      var deadline, other := Deadline(s, k.timestamp), KeyName(s.cc, k);
      HoldsSet(m, name, other, deadline, now, v + l, w, {});
      assert (v + l) + x' == v + (l + x') && (v + l) + {} == v + l;
      HoldsNot(Set(m, name, now, w), other, deadline, now, if name == other then w else v + l, v + (l + x'), {});
    }
  }

  lemma HoldsExpire<V>(m: map<string, Expiring<V>>, name: string, other: string, deadline: int, now: int, until: int, v: V, none: V)
    requires Holds(m, other, deadline, now, v, none)
    requires name == other ==> deadline <= until
    ensures Holds(Expire(m, name, now, until), other, deadline, now, v, none)
  {
  }

  /** Equal names of timed keys mean one bucket of one pool. */
  lemma SameName(cc: CharClass, a: Key, b: Key)
    requires Sane(cc) && Timed(a) && Timed(b) && KeyName(cc, a) == KeyName(cc, b)
    ensures a.timestamp == b.timestamp && Encoded(cc, a.pool) == Encoded(cc, b.pool)
  {
    hide KeyName, Encoded;
    KeysAreUnambiguous(cc, a, b);
  }

  /** Refreshing the expiry of a key, not before its bucket's own deadline. */
  lemma Refresh(s: Settings, pools: set<string>, h: map<string, Expiring<Tally>>, m: map<string, Expiring<set<string>>>,
                c: seq<ShareEvent>, log: seq<Delta>, adds: seq<Addition>, now: int, key: Key, until: int)
    requires Sane(s.cc) && Timed(key) && (Covered(s, pools, key) ==> Deadline(s, key.timestamp) <= until)
    requires CountersHold(s, pools, h, c, log, now) && MembersHold(s, pools, m, c, adds, now)
    ensures CountersHold(s, pools, Expire(h, KeyName(s.cc, key), now, until), c, log, now)
    ensures MembersHold(s, pools, Expire(m, KeyName(s.cc, key), now, until), c, adds, now)
  {
    hide KeyName, Expected, Logged, SetOf, LoggedSet, Holds, Expire, Plus, Encoded;
    var name := KeyName(s.cc, key);
    forall k: Key | IsCounter(k) && Covered(s, pools, k)
      ensures Holds(Expire(h, name, now, until), KeyName(s.cc, k), Deadline(s, k.timestamp), now,
                    Plus(Expected(s, c, k), Logged(s.cc, log, k)), ZERO)
    {
      if name == KeyName(s.cc, k) { SameName(s.cc, key, k); }
      HoldsExpire(h, name, KeyName(s.cc, k), Deadline(s, k.timestamp), now, until,
                  Plus(Expected(s, c, k), Logged(s.cc, log, k)), ZERO);
    }
    forall k: Key | IsMembers(k) && Covered(s, pools, k)
      ensures Holds(Expire(m, name, now, until), KeyName(s.cc, k), Deadline(s, k.timestamp), now,
                    SetOf(s, c, k) + LoggedSet(s.cc, adds, k), {})
    {
      if name == KeyName(s.cc, k) { SameName(s.cc, key, k); }
      HoldsExpire(m, name, KeyName(s.cc, k), Deadline(s, k.timestamp), now, until,
                  SetOf(s, c, k) + LoggedSet(s.cc, adds, k), {});
    }
  }

  // ---------- All of one event ----------

  function PoolKey(s: Settings, e: ShareEvent): Key { PoolBucket(e.poolId, BucketOf(s, e)) }
  function MinerKey(s: Settings, e: ShareEvent): Key { MinerBucket(e.poolId, e.miner, BucketOf(s, e)) }
  function WorkerKey(s: Settings, e: ShareEvent): Key { WorkerBucket(e.poolId, e.miner, e.worker, BucketOf(s, e)) }
  function SeenKey(s: Settings, e: ShareEvent): Key { SeenEvents(e.poolId, BucketOf(s, e)) }
  function MinersKey(s: Settings, e: ShareEvent): Key { BucketMiners(e.poolId, BucketOf(s, e)) }
  function WorkersKey(s: Settings, e: ShareEvent): Key { BucketWorkers(e.poolId, BucketOf(s, e)) }

  function DeltasOf(s: Settings, e: ShareEvent): seq<Delta> {
    [Delta(PoolKey(s, e), Weight(e))]
    + (if HasMiner(s, e) then [Delta(MinerKey(s, e), Weight(e))] else [])
    + (if HasWorker(s, e) then [Delta(WorkerKey(s, e), Weight(e))] else [])
  }

  function SeenOf(s: Settings, e: ShareEvent): seq<Addition> {
    if White(s, e.eventId) then [] else [Addition(SeenKey(s, e), e.eventId)]
  }

  function AdditionsOf(s: Settings, e: ShareEvent): seq<Addition> {
    SeenOf(s, e)
    + (if HasMiner(s, e) then [Addition(MinersKey(s, e), e.miner)] else [])
    + (if HasWorker(s, e) then [Addition(WorkersKey(s, e), e.miner + "\t" + e.worker)] else [])
  }

  lemma DeltasShare(s: Settings, e: ShareEvent, k: Key)
    requires Sane(s.cc) && IsCounter(k)
    ensures Logged(s.cc, DeltasOf(s, e), k) == Share(s, e, k)
  {
    hide KeyName, Encoded, BucketOf, Weight, White, Logged, Plus;
    PlusAssoc(Weight(e), ZERO, ZERO);
    PlusAssoc(ZERO, ZERO, ZERO);
    var p, m, w := Delta(PoolKey(s, e), Weight(e)), Delta(MinerKey(s, e), Weight(e)), Delta(WorkerKey(s, e), Weight(e));
    KeysAreUnambiguous(s.cc, p.key, k);
    KeysAreUnambiguous(s.cc, m.key, k);
    KeysAreUnambiguous(s.cc, w.key, k);
    LoggedNone(s.cc, k);
    LoggedSnoc(s.cc, [], p, k);
    LoggedSnoc(s.cc, [p], m, k);
    LoggedSnoc(s.cc, [p, m], w, k);
    assert [p] == [] + [p];
    var all := DeltasOf(s, e);
    if HasWorker(s, e) {
      assert [p, m] == [p] + [m] && all == [p, m] + [w];
    } else if HasMiner(s, e) {
      assert all == [p] + [m];
    } else {
      assert all == [p];
    }
  }

  lemma LoggedNone(cc: CharClass, k: Key)
    ensures Logged(cc, [], k) == ZERO && LoggedSet(cc, [], k) == {}
  {
  }

  lemma AdditionsPut(s: Settings, e: ShareEvent, k: Key)
    requires Sane(s.cc) && IsMembers(k)
    ensures LoggedSet(s.cc, AdditionsOf(s, e), k) == Put(s, e, k)
    ensures LoggedSet(s.cc, SeenOf(s, e), k) == if k.SeenEvents? then Put(s, e, k) else {}
  {
    hide KeyName, Encoded, BucketOf, White, LoggedSet;
    var i, m := Addition(SeenKey(s, e), e.eventId), Addition(MinersKey(s, e), e.miner);
    var w := Addition(WorkersKey(s, e), e.miner + "\t" + e.worker);
    KeysAreUnambiguous(s.cc, i.key, k);
    KeysAreUnambiguous(s.cc, m.key, k);
    KeysAreUnambiguous(s.cc, w.key, k);
    LoggedNone(s.cc, k);
    var seen := SeenOf(s, e);
    LoggedSetSnoc(s.cc, [], i, k);
    assert [i] == [] + [i];
    LoggedSetSnoc(s.cc, seen, m, k);
    LoggedSetSnoc(s.cc, seen + [m], w, k);
    var all := AdditionsOf(s, e);
    if HasWorker(s, e) {
      assert all == seen + [m] + [w];
    } else if HasMiner(s, e) {
      assert all == seen + [m];
    } else {
      assert all == seen;
    }
  }

  /** The bucket's keys are still sure to be there. */
  ghost predicate Live(s: Settings, pools: set<string>, e: ShareEvent, now: int) {
    Encoded(s.cc, e.poolId) in pools && BucketOf(s, e) > 0 && now < Deadline(s, BucketOf(s, e))
  }

  /** Whether the event was counted matters only while its bucket lives. */
  lemma SettleCounters(s: Settings, pools: set<string>, h: map<string, Expiring<Tally>>, c: seq<ShareEvent>,
                       e: ShareEvent, log: seq<Delta>, c': seq<ShareEvent>, now: int)
    requires Sane(s.cc) && CountersHold(s, pools, h, c, log, now)
    requires log == [] || log == DeltasOf(s, e)
    requires c' == c || c' == c + [e]
    requires Live(s, pools, e, now) ==> c' == if log == [] then c else c + [e]
    ensures CountersHold(s, pools, h, c', [], now)
  {
    hide KeyName, Encoded, BucketOf, Expected, Logged, DeltasOf, Plus, Get, Weight, White;
    forall k: Key | IsCounter(k) && Covered(s, pools, k)
      ensures Holds(h, KeyName(s.cc, k), Deadline(s, k.timestamp), now,
                    Plus(Expected(s, c', k), Logged(s.cc, [], k)), ZERO)
    {
      ExpectedSnoc(s, c, e, k);
      DeltasShare(s, e, k);
      LoggedNone(s.cc, k);
      var was, share := Expected(s, c, k), Share(s, e, k);
      PlusAssoc(was, share, ZERO);
      PlusAssoc(share, ZERO, ZERO);
      PlusAssoc(was, ZERO, ZERO);
      if now < Deadline(s, k.timestamp) && share != ZERO { assert Live(s, pools, e, now); }
    }
  }

  lemma SeenSetOf(s: Settings, c: seq<ShareEvent>, p: string, q: string, b: int)
    requires SamePool(s, p, q)
    ensures SetOf(s, c, SeenEvents(p, b)) == SetOf(s, c, SeenEvents(q, b))
  {
    hide BucketOf, Encoded, White;
    if c != [] { SeenSetOf(s, c[..|c| - 1], p, q, b); }
  }

  lemma SettleMembers(s: Settings, pools: set<string>, m: map<string, Expiring<set<string>>>, c: seq<ShareEvent>,
                      e: ShareEvent, all: bool, c': seq<ShareEvent>, now: int)
    requires Sane(s.cc)
    requires MembersHold(s, pools, m, c, if all then AdditionsOf(s, e) else SeenOf(s, e), now)
    requires c' == c || c' == c + [e]
    requires Live(s, pools, e, now) ==> all == !Repeat(s, c, e) && c' == if all then c + [e] else c
    ensures MembersHold(s, pools, m, c', [], now)
  {
    hide KeyName, Encoded, BucketOf, SetOf, LoggedSet, AdditionsOf, SeenOf, Get, White, Repeat;
    var log := if all then AdditionsOf(s, e) else SeenOf(s, e);
    forall k: Key | IsMembers(k) && Covered(s, pools, k) && now < Deadline(s, k.timestamp)
      ensures SetOf(s, c', k) + LoggedSet(s.cc, [], k) == SetOf(s, c, k) + LoggedSet(s.cc, log, k)
    {
      ExpectedSnoc(s, c, e, k);
      AdditionsPut(s, e, k);
      LoggedNone(s.cc, k);
      var was, put := SetOf(s, c, k), Put(s, e, k);
      assert was + {} == was && (was + put) + {} == was + put;
      if put != {} && !all && k.SeenEvents? {
        SeenIsRepeat(s, c, e);
        SeenSetOf(s, c, e.poolId, k.pool, k.timestamp);
        assert put == {e.eventId} && e.eventId in was;
        assert was + put == was;
      }
      assert LoggedSet(s.cc, log, k) == if all || k.SeenEvents? then put else {};
    }
  }

  // ---------- Clearing a pool ----------

  /** The events of other pools. */
  function Without(s: Settings, c: seq<ShareEvent>, pool: string): seq<ShareEvent> {
    if c == [] then []
    else
      var rest := Without(s, c[..|c| - 1], pool);
      if SamePool(s, c[|c| - 1].poolId, pool) then rest else rest + [c[|c| - 1]]
  }

  lemma NothingCounted(s: Settings, k: Key)
    ensures Expected(s, [], k) == ZERO && SetOf(s, [], k) == {}
  {
  }

  lemma OtherPool(s: Settings, e: ShareEvent, k: Key)
    requires Timed(k) && !SamePool(s, e.poolId, k.pool)
    ensures Share(s, e, k) == ZERO && Put(s, e, k) == {}
  {
    hide Encoded, BucketOf, White, Weight;
  }

  lemma {:induction false} WithoutPool(s: Settings, c: seq<ShareEvent>, pool: string, k: Key)
    requires Timed(k)
    ensures Expected(s, Without(s, c, pool), k) == if SamePool(s, k.pool, pool) then ZERO else Expected(s, c, k)
    ensures SetOf(s, Without(s, c, pool), k) == if SamePool(s, k.pool, pool) then {} else SetOf(s, c, k)
    decreases |c|
  {
    hide Encoded, Share, Put, Plus, Expected, SetOf;
    if c == [] {
      NothingCounted(s, k);
    } else {
      var init, e := c[..|c| - 1], c[|c| - 1];
      if !SamePool(s, e.poolId, k.pool) { OtherPool(s, e, k); }
      WithoutPool(s, init, pool, k);
      assert c == init + [e];
      ExpectedSnoc(s, init, e, k);
      ExpectedSnoc(s, Without(s, init, pool), e, k);
      PlusAssoc(Expected(s, init, k), ZERO, ZERO);
      PlusAssoc(ZERO, ZERO, ZERO);
    }
  }

  /** With every key behind the pool's prefix gone, the pool's counters stand at zero. */
  lemma Clear(s: Settings, pools: set<string>, h: map<string, Expiring<Tally>>, m: map<string, Expiring<set<string>>>,
              h': map<string, Expiring<Tally>>, m': map<string, Expiring<set<string>>>,
              c: seq<ShareEvent>, now: int, pool: string)
    requires Sane(s.cc) && CountersHold(s, pools, h, c, [], now) && MembersHold(s, pools, m, c, [], now)
    requires forall name :: name in h' <==> name in h && !(PoolPrefix(s.cc, pool) <= name)
    requires forall name | name in h' :: h'[name] == h[name]
    requires forall name :: name in m' <==> name in m && !(PoolPrefix(s.cc, pool) <= name)
    requires forall name | name in m' :: m'[name] == m[name]
    ensures CountersHold(s, pools + {Encoded(s.cc, pool)}, h', Without(s, c, pool), [], now)
    ensures MembersHold(s, pools + {Encoded(s.cc, pool)}, m', Without(s, c, pool), [], now)
  {
    hide KeyName, Encoded, PoolPrefix, Expected, SetOf, Logged, LoggedSet, Plus, Without;
    forall k: Key | IsCounter(k) && Covered(s, pools + {Encoded(s.cc, pool)}, k)
      ensures Holds(h', KeyName(s.cc, k), Deadline(s, k.timestamp), now,
                    Plus(Expected(s, Without(s, c, pool), k), Logged(s.cc, [], k)), ZERO)
    {
      ClearPrefixIsOwn(s.cc, k, pool);
      WithoutPool(s, c, pool, k);
      LoggedNone(s.cc, k);
      PlusAssoc(ZERO, ZERO, ZERO);
    }
    forall k: Key | IsMembers(k) && Covered(s, pools + {Encoded(s.cc, pool)}, k)
      ensures Holds(m', KeyName(s.cc, k), Deadline(s, k.timestamp), now,
                    SetOf(s, Without(s, c, pool), k) + LoggedSet(s.cc, [], k), {})
    {
      ClearPrefixIsOwn(s.cc, k, pool);
      WithoutPool(s, c, pool, k);
      LoggedNone(s.cc, k);
      var was, now' := SetOf(s, c, k), SetOf(s, Without(s, c, pool), k);
      assert was + {} == was && now' + {} == now';
    }
  }

  /** Certainty about fewer pools. */
  lemma FewerPools(s: Settings, pools: set<string>, fewer: set<string>, h: map<string, Expiring<Tally>>,
                   m: map<string, Expiring<set<string>>>, c: seq<ShareEvent>, now: int)
    requires fewer <= pools && CountersHold(s, pools, h, c, [], now) && MembersHold(s, pools, m, c, [], now)
    ensures CountersHold(s, fewer, h, c, [], now) && MembersHold(s, fewer, m, c, [], now)
  {
    hide KeyName, Encoded, Expected, SetOf, Logged, LoggedSet, Plus, Holds;
    assert forall k: Key | IsCounter(k) && Covered(s, fewer, k) :: Covered(s, pools, k);
    assert forall k: Key | IsMembers(k) && Covered(s, fewer, k) :: Covered(s, pools, k);
  }

  // ---------- Summaries ----------

  /** `written` tells whether the worker's document is stored: one that did nothing in
      the window has none. */
  datatype WorkerDocument = WorkerDocument(worker: string, tally: Tally, written: bool)

  datatype MinerDocument = MinerDocument(miner: string, tally: Tally, workers: seq<WorkerDocument>)

  datatype PoolDocument = PoolDocument(
    tally: Tally, minersOnline: nat, workersOnline: nat, updated: int, miners: seq<MinerDocument>)

  function WorkerList(ws: seq<WorkerDocument>): (r: seq<string>)
    ensures |r| == |ws| && forall i | 0 <= i < |r| :: r[i] == ws[i].worker
  {
    seq(|ws|, i requires 0 <= i < |ws| => ws[i].worker)
  }

  function MinerList(ms: seq<MinerDocument>): (r: seq<string>)
    ensures |r| == |ms| && forall i | 0 <= i < |r| :: r[i] == ms[i].miner
  {
    seq(|ms|, i requires 0 <= i < |ms| => ms[i].miner)
  }

  function NotWhite(s: Settings, names: seq<string>): seq<string> {
    if names == [] then []
    else NotWhite(s, names[..|names| - 1]) + if White(s, names[|names| - 1]) then [] else [names[|names| - 1]]
  }

  lemma {:induction false} NoneWhite(s: Settings, names: seq<string>)
    requires forall i | 0 <= i < |names| :: !White(s, names[i])
    ensures NotWhite(s, names) == names
    decreases |names|
  {
    if names != [] { NoneWhite(s, names[..|names| - 1]); }
  }

  ghost predicate WorkerRight(s: Settings, c: seq<ShareEvent>, pool: string, miner: string, lo: int, hi: int, w: WorkerDocument) {
    w.tally == WindowTally(s, c, WorkerBucket(pool, miner, w.worker, 0), lo, hi) && w.written == (w.tally.total > 0)
  }

  /** A miner's document: its counters over the window, and the workers the pairs give it. */
  ghost predicate MinerRight(s: Settings, fold: char -> char, c: seq<ShareEvent>, pool: string, pairs: seq<string>,
                             lo: int, hi: int, m: MinerDocument) {
    && m.tally == WindowTally(s, c, MinerBucket(pool, m.miner, 0), lo, hi)
    && Represents(fold, WorkerList(m.workers), WorkerNames(s, fold, pairs, m.miner))
    && forall j | 0 <= j < |m.workers| :: WorkerRight(s, c, pool, m.miner, lo, hi, m.workers[j])
  }

  /** A pool's document agrees with the events that count. */
  ghost predicate SummaryRight(s: Settings, fold: char -> char, c: seq<ShareEvent>, pool: string, pairs: seq<string>,
                               lo: int, hi: int, r: PoolDocument) {
    && r.tally == WindowTally(s, c, PoolBucket(pool, 0), lo, hi)
    && Represents(fold, MinerList(r.miners), MinersOf(s, c, pool, lo, hi)) && r.minersOnline == |r.miners|
    && Represents(fold, pairs, PairsOf(s, c, pool, lo, hi)) && r.workersOnline == |pairs|
    && forall i | 0 <= i < |r.miners| :: MinerRight(s, fold, c, pool, pairs, lo, hi, r.miners[i])
  }

  /** What is known of a document: the pool it was asked for, the worker pairs it was made
      from, and when its last counter had been read. */
  datatype Reading = Reading(pool: string, pairs: seq<string>, end: int)

  function FirstBucket(s: Settings, window: Positive, r: PoolDocument): int {
    BucketStart(s.bucket, r.updated - window * 1000)
  }

  /** The document agrees with the counted events if its pool's keys are right and those of
      the window's first bucket were alive to the end of the reading. */
  ghost predicate Reported(s: Settings, fold: char -> char, window: Positive, pools: set<string>, c: seq<ShareEvent>,
                           r: PoolDocument, d: Reading) {
    var lo, hi := FirstBucket(s, window, r), BucketStart(s.bucket, r.updated);
    Encoded(s.cc, d.pool) in pools && lo > 0 && d.end < Deadline(s, lo) ==> SummaryRight(s, fold, c, d.pool, d.pairs, lo, hi, r)
  }

  function PoolList(ds: seq<Reading>): (r: seq<string>)
    ensures |r| == |ds| && forall i | 0 <= i < |r| :: r[i] == ds[i].pool
  {
    seq(|ds|, i requires 0 <= i < |ds| => ds[i].pool)
  }

  /** The private accumulator class of the writer. */
  class Counter {
    var total: nat
    var accepted: nat
    var rejected: nat
    var stale: nat
    var difficulty: real

    function Value(): Tally
      reads this
    {
      Tally(total, accepted, rejected, stale, difficulty)
    }

    constructor ()
      ensures Value() == ZERO
    {
      total, accepted, rejected, stale, difficulty := 0, 0, 0, 0, 0.0;
    }

    method Add(other: Counter)
      modifies this
      ensures Value() == Plus(old(Value()), old(other.Value()))
    {
      total, accepted, rejected := total + other.total, accepted + other.accepted, rejected + other.rejected;
      stale, difficulty := stale + other.stale, difficulty + other.difficulty;
    }
  }

  // ---------- The writer ----------

  class RedisLiveStateWriter {
    const db: Redis
    const s: Settings
    const windowSeconds: Positive
    /** Comparison ignoring case is comparison after this mapping. */
    const fold: char -> char
    /** The deliveries that count, since their pool was last cleared. */
    ghost var counted: seq<ShareEvent>
    /** The encoded names of the pools that were cleared and never since got an event
        from the future. */
    ghost var pools: set<string>

    ghost predicate Agree(log: seq<Delta>, adds: seq<Addition>)
      reads this, db
    {
      && Sane(s.cc)
      && CountersHold(s, pools, db.hashes, counted, log, db.clock)
      && MembersHold(s, pools, db.members, counted, adds, db.clock)
    }

    ghost predicate Valid()
      reads this, db
    {
      Agree([], [])
    }

    constructor (db: Redis, cc: CharClass, fold: char -> char, ttlSeconds: int, windowSeconds: int, bucketSeconds: int)
      requires Sane(cc)
      ensures Valid() && this.db == db && this.fold == fold && pools == {} && counted == []
      ensures s.cc == cc && s.ttl >= ttlSeconds && s.bucket >= bucketSeconds && this.windowSeconds >= windowSeconds
      ensures (ttlSeconds >= 1 ==> s.ttl == ttlSeconds) && (bucketSeconds >= 1 ==> s.bucket == bucketSeconds)
      ensures windowSeconds >= 1 ==> this.windowSeconds == windowSeconds
    {
      hide Holds, KeyName;
      this.db := db;
      this.s := Settings(cc, if ttlSeconds > 1 then ttlSeconds else 1, if bucketSeconds > 1 then bucketSeconds else 1);
      this.windowSeconds := if windowSeconds > 1 then windowSeconds else 1;
      this.fold, this.counted, this.pools := fold, [], {};
    }

    /** Nothing changed but the time. */
    lemma StillAgrees(clock: int)
      requires Sane(s.cc) && clock <= db.clock
      requires CountersHold(s, pools, db.hashes, counted, [], clock) && MembersHold(s, pools, db.members, counted, [], clock)
      ensures Valid()
    {
      hide CountersHold, MembersHold;
      CountersLater(s, pools, db.hashes, counted, [], clock, db.clock);
      MembersLater(s, pools, db.members, counted, [], clock, db.clock);
    }

    method ClearPoolStateAsync(pool: string)
      requires Valid()
      modifies this, db
      ensures Valid() && old(db.clock) <= db.clock
      ensures pools == if White(s, pool) then old(pools) else old(pools) + {Encoded(s.cc, pool)}
      ensures counted == if White(s, pool) then old(counted) else Without(s, old(counted), pool)
    {
      hide CountersHold, MembersHold, Encoded, AllWhite, KeyName;
      if White(s, pool) {
        return;
      }
      db.DeleteKeysByPrefix(PoolPrefix(s.cc, pool));
      CountersLater(s, pools, old(db.hashes), counted, [], old(db.clock), db.clock);
      MembersLater(s, pools, old(db.members), counted, [], old(db.clock), db.clock);
      Clear(s, pools, old(db.hashes), old(db.members), db.hashes, db.members, counted, db.clock, pool);
      counted, pools := Without(s, counted, pool), pools + {Encoded(s.cc, pool)};
    }

    /** An event of a certified pool does not come from the future. */
    ghost predicate Timely(e: ShareEvent)
      reads this, db
    {
      Encoded(s.cc, e.poolId) in pools ==> e.created <= db.clock
    }

    /** KeyExpireAsync on one of the event's keys. */
    method ExpireAsync(key: Key, e: ShareEvent, ghost log: seq<Delta>, ghost adds: seq<Addition>)
      requires Agree(log, adds) && Timely(e)
      requires Timed(key) && key.pool == e.poolId && key.timestamp == BucketOf(s, e)
      modifies db
      ensures Agree(log, adds) && old(db.clock) <= db.clock
    {
      hide CountersHold, MembersHold, Encoded, KeyName, BucketStart;
      db.KeyExpireAsync(KeyName(s.cc, key), s.ttl * 1000);
      CountersLater(s, pools, old(db.hashes), counted, log, old(db.clock), db.clock);
      MembersLater(s, pools, old(db.members), counted, adds, old(db.clock), db.clock);
      StartIsMultiple(s.bucket, e.created);
      Refresh(s, pools, old(db.hashes), old(db.members), counted, log, adds, db.clock, key, db.clock + s.ttl * 1000);
    }

    method SetAddAsync(key: Key, value: string, ghost log: seq<Delta>, ghost adds: seq<Addition>) returns (added: bool)
      requires Agree(log, adds)
      modifies db
      ensures Agree(log, adds + [Addition(key, value)]) && old(db.clock) <= db.clock
      ensures IsMembers(key) && Covered(s, pools, key) && db.clock < Deadline(s, key.timestamp) ==>
        added == (value !in SetOf(s, counted, key) + LoggedSet(s.cc, adds, key))
    {
      hide CountersHold, Encoded, KeyName, SetOf, LoggedSet;
      added := db.SetAddAsync(KeyName(s.cc, key), value);
      CountersLater(s, pools, old(db.hashes), counted, log, old(db.clock), db.clock);
      MembersLater(s, pools, old(db.members), counted, adds, old(db.clock), db.clock);
      Add(s, pools, old(db.members), counted, adds, db.clock, key, value);
    }

    method MarkSeenAsync(e: ShareEvent) returns (added: bool)
      requires Valid() && Timely(e)
      modifies db
      ensures Agree([], SeenOf(s, e)) && old(db.clock) <= db.clock
      ensures Live(s, pools, e, db.clock) ==> added == !Repeat(s, counted, e)
      ensures White(s, e.eventId) ==> added
    {
      hide CountersHold, MembersHold, Encoded, AllWhite, KeyName, BucketStart, SetOf;
      if White(s, e.eventId) {
        return true;
      }
      var key := SeenKey(s, e);
      SeenIsRepeat(s, counted, e);
      LoggedNone(s.cc, key);
      added := SetAddAsync(key, e.eventId, [], []);
      assert [] + [Addition(key, e.eventId)] == SeenOf(s, e);
      ExpireAsync(key, e, [], SeenOf(s, e));
    }

    method IncrementBucketAsync(key: Key, e: ShareEvent, ghost log: seq<Delta>, ghost adds: seq<Addition>)
      requires Agree(log, adds)
      modifies db
      ensures Agree(log + [Delta(key, Weight(e))], adds) && old(db.clock) <= db.clock
    {
      hide CountersHold, MembersHold, Encoded, KeyName, Entries, Weight, Plus, Total, Set, Get;
      var entries := Entries(e);
      StartDelta(s, pools, db.hashes, counted, log, db.clock, key);
      assert entries[..0] == [];
      TotalNone();
      for i := 0 to |entries|
        invariant Agree(log + [Delta(key, Total(entries[..i]))], adds) && old(db.clock) <= db.clock
      {
        label before:
        db.HashIncrementAsync(KeyName(s.cc, key), entries[i]);
        var t := Total(entries[..i]);
        CountersLater(s, pools, old@before(db.hashes), counted, log + [Delta(key, t)], old@before(db.clock), db.clock);
        MembersLater(s, pools, db.members, counted, adds, old@before(db.clock), db.clock);
        Increment(s, pools, old@before(db.hashes), counted, log, db.clock, key, t, entries[i]);
        TotalSnoc(entries[..i], entries[i]);
        assert entries[..i + 1] == entries[..i] + [entries[i]];
      }
      assert entries[..|entries|] == entries;
      EntriesWeigh(e);
    }

    /** A delivery counts unless an event with its id, pool and bucket counted before. It
        keeps the store right, whatever time passes between the calls; an event from the
        future costs its pool the certificate. */
    method WriteEventAsync(e: ShareEvent)
      requires Valid()
      modifies this, db
      ensures Valid() && old(db.clock) <= db.clock
      ensures counted == Next(s, old(counted), e)
      ensures pools == if White(s, e.poolId) || e.created <= old(db.clock) then old(pools)
                       else old(pools) - {Encoded(s.cc, e.poolId)}
    {
      hide CountersHold, MembersHold, Encoded, AllWhite, KeyName, BucketStart, Repeat, Weight;
      if White(s, e.poolId) {
        return;
      }
      if e.created > db.clock {
        FewerPools(s, pools, pools - {Encoded(s.cc, e.poolId)}, db.hashes, db.members, counted, db.clock);
        pools := pools - {Encoded(s.cc, e.poolId)};
      }
      var added := MarkSeenAsync(e);
      if !added {
        Settle(e, false);
        counted := Next(s, counted, e);
        return;
      }
      ghost var log, adds := WriteCountersAsync(e);
      Settle(e, true);
      counted := Next(s, counted, e);
    }

    /** The counters and sets of an event that is to count. */
    method WriteCountersAsync(e: ShareEvent) returns (ghost log: seq<Delta>, ghost adds: seq<Addition>)
      requires Agree([], SeenOf(s, e)) && Timely(e)
      modifies db
      ensures log == DeltasOf(s, e) && adds == AdditionsOf(s, e)
      ensures Agree(log, adds) && old(db.clock) <= db.clock
    {
      hide CountersHold, MembersHold, Encoded, AllWhite, KeyName, BucketStart, Weight, SeenOf;
      log, adds := [], SeenOf(s, e);
      IncrementBucketAsync(PoolKey(s, e), e, log, adds);
      log := log + [Delta(PoolKey(s, e), Weight(e))];
      ExpireAsync(PoolKey(s, e), e, log, adds);
      if !White(s, e.miner) {
        var _ := SetAddAsync(MinersKey(s, e), e.miner, log, adds);
        adds := adds + [Addition(MinersKey(s, e), e.miner)];
        ExpireAsync(MinersKey(s, e), e, log, adds);
        IncrementBucketAsync(MinerKey(s, e), e, log, adds);
        log := log + [Delta(MinerKey(s, e), Weight(e))];
        ExpireAsync(MinerKey(s, e), e, log, adds);
      }
      if !White(s, e.miner) && !White(s, e.worker) {
        var _ := SetAddAsync(WorkersKey(s, e), e.miner + "\t" + e.worker, log, adds);
        adds := adds + [Addition(WorkersKey(s, e), e.miner + "\t" + e.worker)];
        ExpireAsync(WorkersKey(s, e), e, log, adds);
        IncrementBucketAsync(WorkerKey(s, e), e, log, adds);
        log := log + [Delta(WorkerKey(s, e), Weight(e))];
        ExpireAsync(WorkerKey(s, e), e, log, adds);
      }
    }

    lemma Settle(e: ShareEvent, all: bool)
      requires Agree(if all then DeltasOf(s, e) else [], if all then AdditionsOf(s, e) else SeenOf(s, e))
      requires !White(s, e.poolId)
      requires Live(s, pools, e, db.clock) ==> all == !Repeat(s, counted, e)
      ensures CountersHold(s, pools, db.hashes, Next(s, counted, e), [], db.clock)
      ensures MembersHold(s, pools, db.members, Next(s, counted, e), [], db.clock)
    {
      hide CountersHold, MembersHold, Encoded, AllWhite, KeyName, BucketOf, AdditionsOf, SeenOf, Repeat;
      var next := Next(s, counted, e);
      SettleCounters(s, pools, db.hashes, counted, e, if all then DeltasOf(s, e) else [], next, db.clock);
      SettleMembers(s, pools, db.members, counted, e, all, next, db.clock);
    }

    // ---------- Rebuilding a pool's documents ----------

    /** The pool's keys from the bucket lo on are still sure to be there. */
    ghost predicate Certain(pool: string, lo: int)
      reads this, db
    {
      Encoded(s.cc, pool) in pools && lo > 0 && db.clock < Deadline(s, lo)
    }

    method ReadCounterAsync(key: Key) returns (r: Counter)
      requires Valid() && IsCounter(key)
      modifies db`clock
      ensures Valid() && old(db.clock) <= db.clock && fresh(r)
      ensures Certain(key.pool, key.timestamp) ==> r.Value() == Expected(s, counted, key)
    {
      hide CountersHold, MembersHold, KeyName, Expected, Get, Encoded;
      var entries := db.HashGetAllAsync(KeyName(s.cc, key));
      CountersLater(s, pools, db.hashes, counted, [], old(db.clock), db.clock);
      MembersLater(s, pools, db.members, counted, [], old(db.clock), db.clock);
      CounterRead(key);
      r := new Counter();
      r.total, r.accepted, r.rejected := entries.total, entries.accepted, entries.rejected;
      r.stale, r.difficulty := entries.stale, entries.difficulty;
    }

    lemma CounterRead(key: Key)
      requires Valid() && IsCounter(key)
      ensures Certain(key.pool, key.timestamp) ==>
        Get(db.hashes, KeyName(s.cc, key), db.clock, ZERO) == Expected(s, counted, key)
    {
      hide Encoded, KeyName, Expected, MembersHold, Logged, Get, Plus;
      LoggedNone(s.cc, key);
      PlusLaws(Expected(s, counted, key), ZERO, ZERO, ZERO);
    }

    method SetMembersAsync(key: Key) returns (r: seq<string>)
      requires Valid() && IsMembers(key)
      modifies db`clock
      ensures Valid() && old(db.clock) <= db.clock
      ensures Certain(key.pool, key.timestamp) ==> forall x :: x in r <==> x in SetOf(s, counted, key)
    {
      hide Encoded, KeyName, Expected, SetOf, CountersHold;
      r := db.SetMembersAsync(KeyName(s.cc, key));
      CountersLater(s, pools, db.hashes, counted, [], old(db.clock), db.clock);
      MembersLater(s, pools, db.members, counted, [], old(db.clock), db.clock);
      LoggedNone(s.cc, key);
    }

    lemma SumOverStep(key: Key, buckets: seq<int>, j: nat)
      requires IsCounter(key) && j < |buckets|
      ensures SumOver(s, counted, key, buckets[..j + 1])
           == Plus(SumOver(s, counted, key, buckets[..j]), Expected(s, counted, At(key, buckets[j])))
    {
      hide Plus, Expected, At;
      assert buckets[..j + 1][..j] == buckets[..j];
    }

    /** A miner's or a worker's counter over the buckets. */
    method SumBucketsAsync(key: Key, buckets: seq<int>, ghost lo: int, ghost hi: int) returns (counter: Counter)
      requires Valid() && IsCounter(key) && Tiles(s.bucket, buckets, lo, hi)
      modifies db`clock
      ensures Valid() && old(db.clock) <= db.clock && fresh(counter)
      ensures Certain(key.pool, lo) ==> counter.Value() == WindowTally(s, counted, key, lo, hi)
    {
      hide Encoded, CountersHold, MembersHold, SumOver, WindowTally, Expected, Plus, BucketStart, At;
      counter := new Counter();
      assert buckets[..0] == [];
      SumOverEmpty(key);
      for j := 0 to |buckets|
        invariant Valid() && old(db.clock) <= db.clock && fresh(counter)
        invariant Certain(key.pool, lo) ==> counter.Value() == SumOver(s, counted, key, buckets[..j])
      {
        var read := ReadCounterAsync(At(key, buckets[j]));
        counter.Add(read);
        SumOverStep(key, buckets, j);
      }
      assert buckets[..|buckets|] == buckets;
      WindowSum(s, counted, key, buckets, lo, hi);
    }

    lemma SumOverEmpty(key: Key)
      requires IsCounter(key)
      ensures SumOver(s, counted, key, []) == ZERO
    {
    }

    method RebuildWorkerAsync(pool: string, miner: string, worker: string, buckets: seq<int>, ghost lo: int, ghost hi: int)
      returns (r: WorkerDocument)
      requires Valid() && Tiles(s.bucket, buckets, lo, hi)
      modifies db`clock
      ensures Valid() && old(db.clock) <= db.clock && r.worker == worker
      ensures Certain(pool, lo) ==> WorkerRight(s, counted, pool, miner, lo, hi, r)
    {
      hide Encoded, CountersHold, MembersHold, WindowTally, BucketStart;
      var counter := SumBucketsAsync(WorkerBucket(pool, miner, worker, 0), buckets, lo, hi);
      r := WorkerDocument(worker, counter.Value(), counter.total > 0);
    }

    method RebuildMinerAsync(pool: string, miner: string, pairs: seq<string>, buckets: seq<int>, ghost lo: int, ghost hi: int)
      returns (r: MinerDocument)
      requires Valid() && Tiles(s.bucket, buckets, lo, hi)
      modifies db`clock
      ensures Valid() && old(db.clock) <= db.clock && r.miner == miner
      ensures Certain(pool, lo) ==> MinerRight(s, fold, counted, pool, pairs, lo, hi, r)
    {
      hide Encoded, CountersHold, MembersHold, WindowTally, BucketStart, Represents, WorkerNames, WorkerRight;
      var counter := SumBucketsAsync(MinerBucket(pool, miner, 0), buckets, lo, hi);
      var tally := counter.Value();
      var names := WorkersOf(s, fold, pairs, miner);
      var workers: seq<WorkerDocument> := [];
      for i := 0 to |names|
        invariant Valid() && old(db.clock) <= db.clock
        invariant WorkerList(workers) == names[..i]
        invariant Certain(pool, lo) ==> tally == WindowTally(s, counted, MinerBucket(pool, miner, 0), lo, hi)
        invariant Certain(pool, lo) ==>
          forall j | 0 <= j < |workers| :: WorkerRight(s, counted, pool, miner, lo, hi, workers[j])
      {
        var w := RebuildWorkerAsync(pool, miner, names[i], buckets, lo, hi);
        workers := workers + [w];
      }
      assert names[..|names|] == names;
      r := MinerDocument(miner, tally, workers);
    }

    method RebuildMinersAsync(pool: string, miners: seq<string>, pairs: seq<string>, buckets: seq<int>, ghost lo: int, ghost hi: int)
      returns (r: seq<MinerDocument>)
      requires Valid() && Tiles(s.bucket, buckets, lo, hi)
      modifies db`clock
      ensures Valid() && old(db.clock) <= db.clock && MinerList(r) == NotWhite(s, miners)
      ensures Certain(pool, lo) ==>
        forall i | 0 <= i < |r| :: MinerRight(s, fold, counted, pool, pairs, lo, hi, r[i])
    {
      hide Encoded, CountersHold, MembersHold, BucketStart, AllWhite, MinerRight;
      r := [];
      for i := 0 to |miners|
        invariant Valid() && old(db.clock) <= db.clock && MinerList(r) == NotWhite(s, miners[..i])
        invariant Certain(pool, lo) ==>
          forall j | 0 <= j < |r| :: MinerRight(s, fold, counted, pool, pairs, lo, hi, r[j])
      {
        assert miners[..i + 1][..i] == miners[..i];
        if !White(s, miners[i]) {
          var m := RebuildMinerAsync(pool, miners[i], pairs, buckets, lo, hi);
          r := r + [m];
        }
      }
      assert miners[..|miners|] == miners;
    }

    /** Read the window's buckets one after the other while time passes, then every listed
        miner and worker. As long as the reading ends before the life of the window's
        first bucket, every document is right. */
    method RebuildPoolWindowAsync(pool: string) returns (r: PoolDocument, ghost d: Reading)
      requires Valid()
      modifies db`clock
      ensures Valid() && old(db.clock) <= r.updated <= db.clock
      ensures d.pool == pool && d.end == db.clock && Reported(s, fold, windowSeconds, pools, counted, r, d)
    {
      hide Encoded, CountersHold, MembersHold, BucketStart, MinerRight, Represents, NotWhite, WindowTally, MinersOf, PairsOf;
      db.Pass();
      CountersLater(s, pools, db.hashes, counted, [], old(db.clock), db.clock);
      MembersLater(s, pools, db.members, counted, [], old(db.clock), db.clock);
      var now := db.clock;
      var from := now - windowSeconds * 1000;
      var buckets := Buckets(s.bucket, from, now);
      ghost var lo, hi := BucketStart(s.bucket, from), BucketStart(s.bucket, now);
      var tally, miners, workerPairs := ReadWindowAsync(pool, buckets, lo, hi);
      var ms := RebuildMinersAsync(pool, miners, workerPairs, buckets, lo, hi);
      r, d := PoolDocument(tally, |miners|, |workerPairs|, now, ms), Reading(pool, workerPairs, db.clock);
      if Certain(pool, lo) {
        MinersAreNamed(miners, pool, lo, hi);
      }
    }

    lemma MinersAreNamed(miners: seq<string>, pool: string, lo: int, hi: int)
      requires Represents(fold, miners, MinersOf(s, counted, pool, lo, hi))
      ensures NotWhite(s, miners) == miners
    {
      hide Folded, NotWhite, InPoolWindow, AllWhite;
      forall i | 0 <= i < |miners| ensures !White(s, miners[i]) {
        assert miners[i] in MinersOf(s, counted, pool, lo, hi);
      }
      NoneWhite(s, miners);
    }

    /** The loop over the buckets. */
    method ReadWindowAsync(pool: string, buckets: seq<int>, ghost lo: int, ghost hi: int)
      returns (tally: Tally, miners: seq<string>, workerPairs: seq<string>)
      requires Valid() && Tiles(s.bucket, buckets, lo, hi)
      modifies db`clock
      ensures Valid() && old(db.clock) <= db.clock
      ensures Certain(pool, lo) ==>
        && tally == WindowTally(s, counted, PoolBucket(pool, 0), lo, hi)
        && Represents(fold, miners, MinersOf(s, counted, pool, lo, hi))
        && Represents(fold, workerPairs, PairsOf(s, counted, pool, lo, hi))
    {
      hide Encoded, CountersHold, MembersHold, BucketStart, Represents, WindowTally, SumOver, MinersOf, PairsOf,
           MinersOver, PairsOver, SetOf, Expected, Plus;
      var counter := new Counter();
      miners, workerPairs := [], [];
      ghost var ms: set<string>, ps: set<string> := {}, {};
      NothingRepresents(fold);
      assert buckets[..0] == [];
      SumOverEmpty(PoolBucket(pool, 0));
      OverEmpty(pool);
      for j := 0 to |buckets|
        invariant Valid() && old(db.clock) <= db.clock && fresh(counter)
        invariant Represents(fold, miners, ms) && Represents(fold, workerPairs, ps)
        invariant Certain(pool, lo) ==>
          && counter.Value() == SumOver(s, counted, PoolBucket(pool, 0), buckets[..j])
          && ms == MinersOver(s, counted, pool, buckets[..j]) && ps == PairsOver(s, counted, pool, buckets[..j])
      {
        var bucketCounter := ReadCounterAsync(PoolBucket(pool, buckets[j]));
        counter.Add(bucketCounter);
        SumOverStep(PoolBucket(pool, 0), buckets, j);
        OverStep(pool, buckets, j);
        var names := SetMembersAsync(BucketMiners(pool, buckets[j]));
        miners, ms := AddAll(miners, names, ms);
        var pairs := SetMembersAsync(BucketWorkers(pool, buckets[j]));
        workerPairs, ps := AddAll(workerPairs, pairs, ps);
      }
      tally := counter.Value();
      assert buckets[..|buckets|] == buckets;
      WindowSum(s, counted, PoolBucket(pool, 0), buckets, lo, hi);
      MinersOverWindow(s, counted, pool, buckets, lo, hi);
      PairsOverWindow(s, counted, pool, buckets, lo, hi);
    }

    lemma OverEmpty(pool: string)
      ensures MinersOver(s, counted, pool, []) == {} && PairsOver(s, counted, pool, []) == {}
    {
    }

    lemma OverStep(pool: string, buckets: seq<int>, j: nat)
      requires j < |buckets|
      ensures MinersOver(s, counted, pool, buckets[..j + 1])
           == MinersOver(s, counted, pool, buckets[..j]) + SetOf(s, counted, BucketMiners(pool, buckets[j]))
      ensures PairsOver(s, counted, pool, buckets[..j + 1])
           == PairsOver(s, counted, pool, buckets[..j]) + SetOf(s, counted, BucketWorkers(pool, buckets[j]))
    {
      hide SetOf;
      assert buckets[..j + 1][..j] == buckets[..j];
    }

    method AddAll(list: seq<string>, names: seq<string>, ghost all: set<string>) returns (r: seq<string>, ghost more: set<string>)
      requires Represents(fold, list, all)
      ensures Represents(fold, r, more) && more == all + set x | x in names
    {
      hide Represents;
      r, more := list, all;
      for i := 0 to |names|
        invariant Represents(fold, r, more) && more == all + set x | x in names[..i]
      {
        r := AddIgnoringCase(fold, r, names[i], more);
        more := more + {names[i]};
        assert names[..i + 1] == names[..i] + [names[i]];
      }
      assert names[..|names|] == names;
    }

    static function PoolsNamed(events: seq<ShareEvent>): set<string> {
      set e | e in events && e.poolId != "" :: e.poolId
    }

    method DistinctPools(events: seq<ShareEvent>) returns (names: seq<string>)
      ensures Represents(fold, names, PoolsNamed(events))
    {
      hide Represents;
      names := [];
      NothingRepresents(fold);
      assert PoolsNamed(events[..0]) == {};
      for i := 0 to |events|
        invariant Represents(fold, names, PoolsNamed(events[..i]))
      {
        ghost var all := PoolsNamed(events[..i]);
        assert events[..i + 1] == events[..i] + [events[i]];
        if events[i].poolId != "" {
          names := AddIgnoringCase(fold, names, events[i].poolId, all);
          assert PoolsNamed(events[..i + 1]) == all + {events[i].poolId};
        } else {
          assert PoolsNamed(events[..i + 1]) == all;
        }
      }
      assert events[..|events|] == events;
    }

    /** Write the events, stopping before any of them when cancelled, then rebuild the
        pools they belong to, one spelling of each. */
    method WriteBatchAsync(events: seq<ShareEvent>, ct: CancellationToken)
      returns (completed: bool, documents: seq<PoolDocument>, ghost readings: seq<Reading>, ghost written: nat)
      requires Valid()
      modifies this, db, ct
      ensures Valid() && old(db.clock) <= db.clock
      ensures completed <==> |events| <= old(ct.looks)
      ensures ct.looks == if completed then old(ct.looks) - |events| else 0
      ensures written == if completed then |events| else old(ct.looks)
      ensures counted == NextAll(s, old(counted), events[..written])
      ensures pools <= old(pools)
      ensures (forall e | e in events :: e.created <= old(db.clock)) ==> pools == old(pools)
      ensures |readings| == |documents|
      ensures completed ==> Represents(fold, PoolList(readings), PoolsNamed(events))
      ensures forall i | 0 <= i < |documents| :: Reported(s, fold, windowSeconds, pools, counted, documents[i], readings[i])
    {
      hide Encoded, CountersHold, MembersHold, BucketStart, AllWhite, Repeat, Represents, Reported;
      documents, readings := [], [];
      completed, written := WriteEventsAsync(events, ct);
      if !completed { return; }
      assert events[..|events|] == events;
      var names := DistinctPools(events);
      for i := 0 to |names|
        invariant Valid() && old(db.clock) <= db.clock && counted == NextAll(s, old(counted), events)
        invariant ct.looks + |events| == old(ct.looks)
        invariant pools <= old(pools)
        invariant (forall e | e in events :: e.created <= old(db.clock)) ==> pools == old(pools)
        invariant |readings| == |documents| && PoolList(readings) == names[..i]
        invariant forall j | 0 <= j < |documents| :: Reported(s, fold, windowSeconds, pools, counted, documents[j], readings[j])
      {
        var document;
        ghost var reading;
        document, reading := RebuildPoolWindowAsync(names[i]);
        documents, readings := documents + [document], readings + [reading];
      }
      assert names[..|names|] == names;
    }

    method WriteEventsAsync(events: seq<ShareEvent>, ct: CancellationToken) returns (completed: bool, ghost written: nat)
      requires Valid()
      modifies this, db, ct
      ensures Valid() && old(db.clock) <= db.clock
      ensures completed <==> |events| <= old(ct.looks)
      ensures ct.looks == if completed then old(ct.looks) - |events| else 0
      ensures written == if completed then |events| else old(ct.looks)
      ensures counted == NextAll(s, old(counted), events[..written])
      ensures pools <= old(pools)
      ensures (forall e | e in events :: e.created <= old(db.clock)) ==> pools == old(pools)
    {
      hide Encoded, CountersHold, MembersHold, BucketStart, AllWhite, Repeat;
      written := 0;
      assert events[..0] == [];
      for i := 0 to |events|
        invariant Valid() && old(db.clock) <= db.clock && written == i && ct.looks + i == old(ct.looks)
        invariant counted == NextAll(s, old(counted), events[..i])
        invariant pools <= old(pools)
        invariant (forall e | e in events :: e.created <= old(db.clock)) ==> pools == old(pools)
      {
        var cancelled := ct.IsCancellationRequested();
        if cancelled { return false, written; }
        assert events[i] in events;
        WriteEventAsync(events[i]);
        assert events[..i + 1][..i] == events[..i];
        written := written + 1;
      }
      completed := true;
    }
  }

  // ---------- What a summary says ----------

  /** The keys of the window's first bucket outlive the reading if they live for the window
      and one bucket more, and the reading takes no longer than what they live beyond. */
  lemma LifeSuffices(s: Settings, window: Positive, r: PoolDocument, end: int)
    requires end - r.updated <= (s.ttl - window - s.bucket) * 1000 && r.updated >= (window + s.bucket) * 1000
    ensures FirstBucket(s, window, r) > 0 && end < Deadline(s, FirstBucket(s, window, r))
  {
    hide BucketStart, Quotient;
    StartIsMultiple(s.bucket, r.updated - window * 1000);
  }

  /** The counts of a pool's summary are numbers of distinct delivered events of their types,
      and its difficulty is that of the accepted ones together: all those created in the window, none older than
      its first bucket. */
  lemma SummaryCountsEvents(s: Settings, fold: char -> char, h: seq<ShareEvent>, pool: string, pairs: seq<string>,
                            from: int, now: int, r: PoolDocument)
    requires ConsistentIds(s, h)
    requires
      SummaryRight(s, fold, Counted(s, h), pool, pairs, BucketStart(s.bucket, from), BucketStart(s.bucket, now), r)
    ensures
      var lo, hi := BucketStart(s.bucket, from), BucketStart(s.bucket, now);
      var c := Counted(s, h);
      && r.tally.total == |Events(s, c, pool, lo, hi, ALL)|
      && r.tally.accepted == |Events(s, c, pool, lo, hi, {ShareAccepted, BlockCandidate, BlockAccepted})|
      && r.tally.rejected == |Events(s, c, pool, lo, hi, {ShareRejected, BlockRejected})|
      && r.tally.stale == |Events(s, c, pool, lo, hi, {ShareStale})|
      && r.tally.difficulty == Difficulty(Events(s, c, pool, lo, hi, {ShareAccepted, BlockCandidate, BlockAccepted}))
    ensures forall e :: e in Counted(s, h) <==> e in h && !White(s, e.poolId)
    ensures forall e: ShareEvent | from <= e.created <= now ::
      InWindow(s, e, BucketStart(s.bucket, from), BucketStart(s.bucket, now))
    ensures BucketStart(s.bucket, from) > 0 ==>
      forall e: ShareEvent | InWindow(s, e, BucketStart(s.bucket, from), BucketStart(s.bucket, now)) ::
        e.created >= BucketStart(s.bucket, from) * 1000
  {
    hide Events, BucketStart, MinerRight, Represents, WindowTally, Counted, AllWhite, InWindow, Difficulty;
    CountedOnce(s, h);
    WindowCounts(s, Counted(s, h), pool, BucketStart(s.bucket, from), BucketStart(s.bucket, now));
    forall e: ShareEvent { WindowReaches(s, e, from, now); }
  }

  // ---------- A whole run ----------

  /** The delivered events of a pool, or of one of its miners, or of one of that miner's
      workers, in a window, of some types. */
  function Delivered(s: Settings, h: seq<ShareEvent>, pool: string, miner: Option<string>, worker: Option<string>,
                     lo: int, hi: int, types: set<EventType>): set<ShareEvent> {
    set e | e in h && !White(s, e.poolId) && InPoolWindow(s, e, pool, lo, hi) && e.eventType in types
      && (miner.Some? ==> HasMiner(s, e) && SamePool(s, e.miner, miner.value))
      && (worker.Some? ==> HasWorker(s, e) && SamePool(s, e.worker, worker.value))
  }

  /** A counter is the numbers of these events by type, and their difficulties together. */
  ghost predicate CountsAre(s: Settings, h: seq<ShareEvent>, pool: string, miner: Option<string>, worker: Option<string>,
                            lo: int, hi: int, t: Tally) {
    var accepted := Delivered(s, h, pool, miner, worker, lo, hi, {ShareAccepted, BlockCandidate, BlockAccepted});
    && t.total == |Delivered(s, h, pool, miner, worker, lo, hi, ALL)|
    && t.accepted == |accepted| && t.difficulty == Difficulty(accepted)
    && t.rejected == |Delivered(s, h, pool, miner, worker, lo, hi, {ShareRejected, BlockRejected})|
    && t.stale == |Delivered(s, h, pool, miner, worker, lo, hi, {ShareStale})|
  }

  /** All counters of a document are those of the delivered events of its window: its own, its
      miners', and their workers'. The window holds every event created in it, and none
      older than its first bucket. */
  ghost predicate CountsDelivered(s: Settings, window: Positive, h: seq<ShareEvent>, r: PoolDocument, pool: string) {
    var lo, hi := FirstBucket(s, window, r), BucketStart(s.bucket, r.updated);
    && CountsAre(s, h, pool, None, None, lo, hi, r.tally)
    && (forall i | 0 <= i < |r.miners| :: MinerDelivered(s, h, pool, lo, hi, r.miners[i]))
    && (forall e: ShareEvent | r.updated - window * 1000 <= e.created <= r.updated :: InWindow(s, e, lo, hi))
    && (forall e: ShareEvent | InWindow(s, e, lo, hi) :: e.created >= lo * 1000)
  }

  ghost predicate MinerDelivered(s: Settings, h: seq<ShareEvent>, pool: string, lo: int, hi: int, m: MinerDocument) {
    && CountsAre(s, h, pool, Some(m.miner), None, lo, hi, m.tally)
    && forall j | 0 <= j < |m.workers| ::
         CountsAre(s, h, pool, Some(m.miner), Some(m.workers[j].worker), lo, hi, m.workers[j].tally)
  }

  /** The key of a counter, whichever the bucket. */
  function CounterKey(pool: string, miner: Option<string>, worker: Option<string>): (k: Key)
    ensures IsCounter(k)
  {
    match (miner, worker)
    case (Some(m), Some(w)) => WorkerBucket(pool, m, w, 0)
    case (Some(m), None) => MinerBucket(pool, m, 0)
    case (None, _) => PoolBucket(pool, 0)
  }

  lemma BelongsTo(s: Settings, e: ShareEvent, pool: string, miner: Option<string>, worker: Option<string>)
    requires worker.Some? ==> miner.Some?
    ensures Belongs(s, e, CounterKey(pool, miner, worker)) <==>
      && SamePool(s, e.poolId, pool)
      && (miner.Some? ==> HasMiner(s, e) && SamePool(s, e.miner, miner.value))
      && (worker.Some? ==> HasWorker(s, e) && SamePool(s, e.worker, worker.value))
  {
    hide Encoded, AllWhite, BucketOf;
  }

  lemma DeliveredAre(s: Settings, h: seq<ShareEvent>, pool: string, miner: Option<string>, worker: Option<string>,
                     lo: int, hi: int, types: set<EventType>)
    requires forall e :: e in Counted(s, h) <==> e in h && !White(s, e.poolId)
    requires worker.Some? ==> miner.Some?
    ensures Delivered(s, h, pool, miner, worker, lo, hi, types)
         == EventsAt(s, Counted(s, h), CounterKey(pool, miner, worker), lo, hi, types)
  {
    hide Counted, AllWhite, InWindow, Belongs, CounterKey, SamePool, HasMiner, HasWorker;
    forall e ensures Belongs(s, e, CounterKey(pool, miner, worker)) <==>
      && SamePool(s, e.poolId, pool)
      && (miner.Some? ==> HasMiner(s, e) && SamePool(s, e.miner, miner.value))
      && (worker.Some? ==> HasWorker(s, e) && SamePool(s, e.worker, worker.value))
    {
      BelongsTo(s, e, pool, miner, worker);
    }
  }

  lemma TallyCounts(s: Settings, h: seq<ShareEvent>, pool: string, miner: Option<string>, worker: Option<string>, lo: int, hi: int)
    requires ConsistentIds(s, h) && (worker.Some? ==> miner.Some?)
    ensures
      CountsAre(s, h, pool, miner, worker, lo, hi, WindowTally(s, Counted(s, h), CounterKey(pool, miner, worker), lo, hi))
  {
    hide Counted, AllWhite, Delivered, EventsAt, Difficulty, WindowTally, CounterKey, ConsistentIds;
    CountedOnce(s, h);
    CounterDescribes(s, Counted(s, h), CounterKey(pool, miner, worker), lo, hi);
    forall types: set<EventType> ensures Delivered(s, h, pool, miner, worker, lo, hi, types)
      == EventsAt(s, Counted(s, h), CounterKey(pool, miner, worker), lo, hi, types)
    {
      DeliveredAre(s, h, pool, miner, worker, lo, hi, types);
    }
  }

  lemma ReportedCounts(s: Settings, fold: char -> char, window: Positive, pools: set<string>, h: seq<ShareEvent>,
                       r: PoolDocument, d: Reading)
    requires Reported(s, fold, window, pools, Counted(s, h), r, d)
    requires ConsistentIds(s, h) && Encoded(s.cc, d.pool) in pools
    requires d.end - r.updated <= (s.ttl - window - s.bucket) * 1000 && r.updated >= (window + s.bucket) * 1000
    ensures CountsDelivered(s, window, h, r, d.pool)
  {
    hide BucketStart, Counted, AllWhite, InWindow, ConsistentIds, Encoded, CountsAre, WindowTally, Represents, Deadline;
    LifeSuffices(s, window, r, d.end);
    var lo, hi := FirstBucket(s, window, r), BucketStart(s.bucket, r.updated);
    TallyCounts(s, h, d.pool, None, None, lo, hi);
    forall i | 0 <= i < |r.miners| ensures MinerDelivered(s, h, d.pool, lo, hi, r.miners[i]) {
      var m := r.miners[i];
      assert MinerRight(s, fold, Counted(s, h), d.pool, d.pairs, lo, hi, m);
      TallyCounts(s, h, d.pool, Some(m.miner), None, lo, hi);
      forall j | 0 <= j < |m.workers|
        ensures CountsAre(s, h, d.pool, Some(m.miner), Some(m.workers[j].worker), lo, hi, m.workers[j].tally)
      {
        assert WorkerRight(s, Counted(s, h), d.pool, m.miner, lo, hi, m.workers[j]);
        TallyCounts(s, h, d.pool, Some(m.miner), Some(m.workers[j].worker), lo, hi);
      }
    }
    forall e: ShareEvent { WindowReaches(s, e, r.updated - window * 1000, r.updated); }
  }

  /** When a batch was delivered, and what is known of the documents it led to. */
  datatype Round = Round(delivered: int, readings: seq<Reading>)

  /** No event of the batches was created after its batch was delivered. */
  ghost predicate Punctual(batches: seq<seq<ShareEvent>>, rounds: seq<Round>) {
    |rounds| <= |batches| && forall k, e | 0 <= k < |rounds| && e in batches[k] :: e.created <= rounds[k].delivered
  }

  predicate Cleared(s: Settings, pools: seq<string>, pool: string) {
    exists j :: 0 <= j < |pools| && SamePool(s, pools[j], pool) && !White(s, pools[j])
  }

  /** A document of a cleared pool that was read in time has the right counts. */
  ghost predicate CountsRight(s: Settings, window: Positive, pools: seq<string>, h: seq<ShareEvent>, r: PoolDocument, d: Reading) {
    && Cleared(s, pools, d.pool)
    && d.end - r.updated <= (s.ttl - window - s.bucket) * 1000
    && r.updated >= (window + s.bucket) * 1000
    ==> CountsDelivered(s, window, h, r, d.pool)
  }

  ghost predicate RoundRight(s: Settings, window: Positive, pools: seq<string>, h: seq<ShareEvent>,
                             documents: seq<PoolDocument>, round: Round) {
    && |round.readings| == |documents|
    && forall i | 0 <= i < |documents| :: CountsRight(s, window, pools, h, documents[i], round.readings[i])
  }

  lemma {:induction false} ConsistentBefore(s: Settings, batches: seq<seq<ShareEvent>>, k: nat)
    requires k <= |batches| && ConsistentIds(s, Joined(batches))
    ensures ConsistentIds(s, Joined(batches[..k]))
    decreases |batches|
  {
    hide AllWhite;
    if k < |batches| {
      var init := batches[..|batches| - 1];
      assert forall i | 0 <= i < |Joined(init)| :: Joined(init)[i] == Joined(batches)[i];
      ConsistentBefore(s, init, k);
      assert init[..k] == batches[..k];
    } else {
      assert batches[..k] == batches;
    }
  }

  lemma NothingToClear(s: Settings, pool: string)
    ensures Without(s, Counted(s, []), pool) == Counted(s, [])
  {
  }

  /** The documents of one more batch. */
  lemma OneRound(s: Settings, fold: char -> char, window: Positive, known: set<string>, pools: seq<string>, h: seq<ShareEvent>,
                 documents: seq<PoolDocument>, round: Round)
    requires |round.readings| == |documents| && ConsistentIds(s, h)
    requires forall i | 0 <= i < |documents| :: Reported(s, fold, window, known, Counted(s, h), documents[i], round.readings[i])
    requires forall j | 0 <= j < |pools| && !White(s, pools[j]) :: Encoded(s.cc, pools[j]) in known
    ensures RoundRight(s, window, pools, h, documents, round)
  {
    hide Reported, Counted, ConsistentIds, AllWhite, Encoded, CountsDelivered;
    forall i | 0 <= i < |documents| ensures CountsRight(s, window, pools, h, documents[i], round.readings[i]) {
      var r, d := documents[i], round.readings[i];
      if Cleared(s, pools, d.pool) && d.end - r.updated <= (s.ttl - window - s.bucket) * 1000
         && r.updated >= (window + s.bucket) * 1000 {
        ReportedCounts(s, fold, window, known, h, r, d);
      }
    }
  }

  /** A run of the writer: the pools are cleared, then batch after batch is written and the
      documents of its pools are rebuilt, whatever time passes. When ids are consistent and
      no event comes before its time, the counts of every document of a cleared pool are
      the numbers of the events delivered up to then in its window, as long as keys live
      for the window, one bucket, and the time a document takes to be read. */
  method DeliverAll(w: RedisLiveStateWriter, pools: seq<string>, batches: seq<seq<ShareEvent>>, ct: CancellationToken)
    returns (completed: bool, documents: seq<seq<PoolDocument>>, ghost rounds: seq<Round>)
    requires w.Valid() && w.counted == []
    modifies w, w.db, ct
    ensures completed <==> |Joined(batches)| <= old(ct.looks)
    ensures w.Valid() && |rounds| == |documents| <= |batches| && (completed ==> |rounds| == |batches|)
    ensures forall k | 0 <= k < |rounds| ::
      Represents(w.fold, PoolList(rounds[k].readings), RedisLiveStateWriter.PoolsNamed(batches[k]))
    ensures ConsistentIds(w.s, Joined(batches)) && Punctual(batches, rounds) ==>
      forall k | 0 <= k < |rounds| :: RoundRight(w.s, w.windowSeconds, pools, Joined(batches[..k + 1]), documents[k], rounds[k])
  {
    hide Encoded, CountersHold, MembersHold, AllWhite, Represents, Reported, ConsistentIds, RoundRight, Joined, PoolList,
         RedisLiveStateWriter.PoolsNamed, NextAll;
    ClearAll(w, pools);
    completed, documents, rounds := false, [], [];
    NothingJoined(batches[..0]);
    NothingNext(w.s, []);
    for k := 0 to |batches|
      invariant w.Valid() && w.counted == NextAll(w.s, [], Joined(batches[..k]))
      invariant |rounds| == |documents| == k && ct.looks + |Joined(batches[..k])| == old(ct.looks)
      invariant forall i | 0 <= i < k ::
        Represents(w.fold, PoolList(rounds[i].readings), RedisLiveStateWriter.PoolsNamed(batches[i]))
      invariant Punctual(batches, rounds) ==>
        forall j | 0 <= j < |pools| && !White(w.s, pools[j]) :: Encoded(w.s.cc, pools[j]) in w.pools
      invariant ConsistentIds(w.s, Joined(batches)) && Punctual(batches, rounds) ==>
        forall i | 0 <= i < k :: RoundRight(w.s, w.windowSeconds, pools, Joined(batches[..i + 1]), documents[i], rounds[i])
    {
      ghost var delivered, readings, written := w.db.clock, [], 0;
      var done, more;
      done, more, readings, written := w.WriteBatchAsync(batches[k], ct);
      JoinedNext(batches, k);
      JoinedLonger(batches, k + 1);
      if !done { return; }
      ghost var round := Round(delivered, readings);
      assert batches[k][..|batches[k]|] == batches[k];
      NextAllAppend(w.s, [], Joined(batches[..k]), batches[k]);
      FewerPunctual(batches, rounds, round);
      if ConsistentIds(w.s, Joined(batches)) && Punctual(batches, rounds + [round]) {
        ConsistentBefore(w.s, batches, k + 1);
        CountedIs(w.s, Joined(batches[..k + 1]));
        OneRound(w.s, w.fold, w.windowSeconds, w.pools, pools, Joined(batches[..k + 1]), more, round);
      }
      documents, rounds := documents + [more], rounds + [round];
    }
    assert batches[..|batches|] == batches;
    completed := true;
  }

  lemma {:induction false} JoinedLonger(batches: seq<seq<ShareEvent>>, k: nat)
    requires k <= |batches|
    ensures |Joined(batches[..k])| <= |Joined(batches)|
    decreases |batches|
  {
    if k < |batches| {
      JoinedLonger(batches[..|batches| - 1], k);
      assert batches[..|batches| - 1][..k] == batches[..k];
    } else {
      assert batches[..k] == batches;
    }
  }

  lemma NothingJoined(batches: seq<seq<ShareEvent>>)
    requires batches == []
    ensures Joined(batches) == []
  {
  }

  lemma NothingNext(s: Settings, c: seq<ShareEvent>)
    ensures NextAll(s, c, []) == c
  {
  }

  lemma CountedIs(s: Settings, h: seq<ShareEvent>)
    ensures Counted(s, h) == NextAll(s, [], h)
  {
  }

  lemma JoinedNext(batches: seq<seq<ShareEvent>>, k: nat)
    requires k < |batches|
    ensures Joined(batches[..k + 1]) == Joined(batches[..k]) + batches[k]
  {
    assert batches[..k + 1][..k] == batches[..k];
  }

  lemma FewerPunctual(batches: seq<seq<ShareEvent>>, rounds: seq<Round>, round: Round)
    requires |rounds| < |batches|
    ensures Punctual(batches, rounds + [round]) ==>
      Punctual(batches, rounds) && forall e | e in batches[|rounds|] :: e.created <= round.delivered
  {
    var more := rounds + [round];
    if Punctual(batches, more) {
      assert more[|rounds|] == round;
      forall k, e | 0 <= k < |rounds| && e in batches[k] ensures e.created <= rounds[k].delivered {
        assert more[k] == rounds[k];
      }
    }
  }

  method ClearAll(w: RedisLiveStateWriter, pools: seq<string>)
    requires w.Valid() && w.counted == []
    modifies w, w.db
    ensures w.Valid() && w.counted == []
    ensures forall j | 0 <= j < |pools| && !White(w.s, pools[j]) :: Encoded(w.s.cc, pools[j]) in w.pools
  {
    hide Encoded, CountersHold, MembersHold, AllWhite;
    for i := 0 to |pools|
      invariant w.Valid() && w.counted == []
      invariant forall j | 0 <= j < i && !White(w.s, pools[j]) :: Encoded(w.s.cc, pools[j]) in w.pools
    {
      w.ClearPoolStateAsync(pools[i]);
    }
  }

  function SumMiners(ms: seq<MinerDocument>): Tally {
    if ms == [] then ZERO else Plus(SumMiners(ms[..|ms| - 1]), ms[|ms| - 1].tally)
  }

  function SumWorkers(ws: seq<WorkerDocument>): Tally {
    if ws == [] then ZERO else Plus(SumWorkers(ws[..|ws| - 1]), ws[|ws| - 1].tally)
  }

  lemma {:induction false} SumMinersIs(s: Settings, c: seq<ShareEvent>, pool: string, lo: int, hi: int, ms: seq<MinerDocument>)
    requires forall i | 0 <= i < |ms| :: ms[i].tally == WindowTally(s, c, MinerBucket(pool, ms[i].miner, 0), lo, hi)
    ensures SumMiners(ms) == SumKeys(s, c, MinerKeys(pool, MinerList(ms)), lo, hi)
    decreases |ms|
  {
    hide WindowTally, Plus;
    if ms != [] {
      var n := |ms| - 1;
      SumMinersIs(s, c, pool, lo, hi, ms[..n]);
      assert MinerKeys(pool, MinerList(ms))[..n] == MinerKeys(pool, MinerList(ms[..n]));
    }
  }

  lemma {:induction false} SumWorkersIs(s: Settings, c: seq<ShareEvent>, pool: string, miner: string, lo: int, hi: int,
                                        ws: seq<WorkerDocument>)
    requires forall i | 0 <= i < |ws| :: WorkerRight(s, c, pool, miner, lo, hi, ws[i])
    ensures SumWorkers(ws) == SumKeys(s, c, WorkerKeys(pool, miner, WorkerList(ws)), lo, hi)
    decreases |ws|
  {
    hide WindowTally, Plus;
    if ws != [] {
      var n := |ws| - 1;
      SumWorkersIs(s, c, pool, miner, lo, hi, ws[..n]);
      assert WorkerKeys(pool, miner, WorkerList(ws))[..n] == WorkerKeys(pool, miner, WorkerList(ws[..n]));
    }
  }

  /** Where the window's names are equal ignoring case exactly when they have one key, a
      right document's miners add up to the pool's events that carry a miner. */
  lemma DocumentConservesMiners(s: Settings, fold: char -> char, c: seq<ShareEvent>, pool: string, pairs: seq<string>,
                                lo: int, hi: int, r: PoolDocument)
    requires SummaryRight(s, fold, c, pool, pairs, lo, hi, r)
    requires Agree(s, fold, MinersOf(s, c, pool, lo, hi), MinersOf(s, c, pool, lo, hi))
    ensures SumMiners(r.miners)
         == Satisfying(s, c, (e: ShareEvent) => SamePool(s, e.poolId, pool) && HasMiner(s, e), lo, hi)
  {
    hide SumMiners, SumKeys, WindowTally, Represents, WorkerRight, MinersOf, PairsOf, Agree, Satisfying, AllWhite,
         SamePool, WorkerNames;
    SumMinersIs(s, c, pool, lo, hi, r.miners);
    MinersConserve(s, fold, c, pool, lo, hi, MinerList(r.miners));
  }

  /** And each listed miner's workers to its events that carry a worker. */
  lemma DocumentConservesWorkers(s: Settings, fold: char -> char, c: seq<ShareEvent>, pool: string, pairs: seq<string>,
                                 lo: int, hi: int, r: PoolDocument, i: nat)
    requires SummaryRight(s, fold, c, pool, pairs, lo, hi, r) && i < |r.miners| && LettersOnly(s, fold)
    requires Agree(s, fold, MinersOf(s, c, pool, lo, hi), MinersOf(s, c, pool, lo, hi))
    requires WorkersAgree(s, fold, c, pool, lo, hi, r.miners[i].miner)
    ensures
      var m := r.miners[i];
      SumWorkers(m.workers) == Satisfying(s, c,
        (e: ShareEvent) => SamePool(s, e.poolId, pool) && HasWorker(s, e) && SamePool(s, e.miner, m.miner), lo, hi)
  {
    hide SumWorkers, SumKeys, WindowTally, Represents, WorkerRight, MinersOf, PairsOf, Agree, WorkersAgree,
         Satisfying, AllWhite, SamePool, WorkerNames, LettersOnly;
    var m := r.miners[i];
    ListIsIn(fold, MinerList(r.miners), MinersOf(s, c, pool, lo, hi), i);
    SumWorkersIs(s, c, pool, m.miner, lo, hi, m.workers);
    WorkersConserve(s, fold, c, pool, lo, hi, pairs, m.miner, WorkerList(m.workers));
  }
}
