/** Which miners and workers a pool's summary lists: sets that ignore case, and the pairs
    a bucket's workers are stored as. */
module LiveListing {
  import opened Contracts
  import opened KeyNames
  import opened LiveCounters
  import opened LiveWindows

  function Folded(fold: char -> char, name: string): string {
    seq(|name|, i requires 0 <= i < |name| => fold(name[i]))
  }

  /** The name is listed, perhaps in another case. */
  predicate Near(fold: char -> char, list: seq<string>, x: string) {
    exists i :: 0 <= i < |list| && Folded(fold, list[i]) == Folded(fold, x)
  }

  lemma NearAt(fold: char -> char, list: seq<string>, x: string, i: nat)
    requires i < |list| && Folded(fold, list[i]) == Folded(fold, x)
    ensures Near(fold, list, x)
  {
    hide Folded;
  }

  lemma NearWhere(fold: char -> char, list: seq<string>, all: set<string>, x: string) returns (i: nat)
    requires Represents(fold, list, all) && x in all
    ensures i < |list| && Folded(fold, list[i]) == Folded(fold, x)
    ensures forall j | 0 <= j < |list| && j != i :: Folded(fold, list[j]) != Folded(fold, x)
  {
    hide Folded;
    assert Near(fold, list, x);
    i :| 0 <= i < |list| && Folded(fold, list[i]) == Folded(fold, x);
  }

  /** A HashSet that ignores case, filled with `all`: of names that differ in case only,
      one is kept. */
  predicate Represents(fold: char -> char, list: seq<string>, all: set<string>) {
    && (forall i | 0 <= i < |list| :: list[i] in all)
    && (forall i, j | 0 <= i < j < |list| :: Folded(fold, list[i]) != Folded(fold, list[j]))
    && (forall x | x in all :: Near(fold, list, x))
  }

  lemma OneMore(fold: char -> char, list: seq<string>, x: string, all: set<string>)
    requires Represents(fold, list, all)
    requires forall j | 0 <= j < |list| :: Folded(fold, list[j]) != Folded(fold, x)
    ensures Represents(fold, list + [x], all + {x})
  {
    hide Folded, Near;
    var r := list + [x];
    NearAt(fold, r, x, |list|);
    forall y | y in all ensures Near(fold, r, y) {
      var i := NearWhere(fold, list, all, y);
      NearAt(fold, r, y, i);
    }
  }

  lemma NoneMore(fold: char -> char, list: seq<string>, x: string, all: set<string>, i: nat)
    requires Represents(fold, list, all) && i < |list| && Folded(fold, list[i]) == Folded(fold, x)
    ensures Represents(fold, list, all + {x})
  {
    hide Folded, Near;
    NearAt(fold, list, x, i);
  }

  method AddIgnoringCase(fold: char -> char, list: seq<string>, x: string, ghost all: set<string>) returns (r: seq<string>)
    requires Represents(fold, list, all)
    ensures Represents(fold, r, all + {x})
  {
    hide Folded, Represents;
    for i := 0 to |list|
      invariant forall j | 0 <= j < i :: Folded(fold, list[j]) != Folded(fold, x)
    {
      if Folded(fold, list[i]) == Folded(fold, x) {
        NoneMore(fold, list, x, all, i);
        return list;
      }
    }
    OneMore(fold, list, x, all);
    r := list + [x];
  }

  // ---------- Pairs of a miner and a worker ----------

  function TabIndex(s: string): (i: nat)
    ensures i <= |s| && '\t' !in s[..i] && (i < |s| ==> s[i] == '\t')
  {
    if s == [] || s[0] == '\t' then 0
    else
      var i := TabIndex(s[1..]);
      assert s[..1 + i] == [s[0]] + s[1..][..i];
      1 + i
  }

  function ParseWorkerPair(value: string): (string, string) {
    var t := TabIndex(value);
    if t < |value| then (value[..t], value[t + 1..]) else ("", "")
  }

  function Pair(miner: string, worker: string): string {
    miner + "\t" + worker
  }

  /** A pair is read back unless the miner's name holds a tab. */
  lemma PairInverts(miner: string, worker: string)
    ensures ParseWorkerPair(Pair(miner, worker)) == (miner, worker) <==> '\t' !in miner
  {
    hide TabIndex;
    var p := Pair(miner, worker);
    var t := TabIndex(p);
    assert p[|miner|] == '\t';
    assert forall i | 0 <= i < t :: p[..t][i] == p[i];
    if t < |miner| { assert miner[t] == '\t'; }
    assert p[..|miner|] == miner && p[|miner| + 1..] == worker;
    if '\t' in miner {
      var i :| 0 <= i < |miner| && miner[i] == '\t';
      assert p[i] == '\t';
    }
  }

  /** A pair gives a miner, whatever its case, a worker. */
  predicate Gives(s: Settings, fold: char -> char, pair: string, miner: string) {
    var (m, w) := ParseWorkerPair(pair);
    !White(s, m) && !White(s, w) && Folded(fold, m) == Folded(fold, miner)
  }

  /** The workers the pairs give a miner. */
  function WorkerNames(s: Settings, fold: char -> char, pairs: seq<string>, miner: string): set<string> {
    if pairs == [] then {}
    else
      var pair := pairs[|pairs| - 1];
      WorkerNames(s, fold, pairs[..|pairs| - 1], miner) + if Gives(s, fold, pair, miner) then {ParseWorkerPair(pair).1} else {}
  }

  /** Group the pairs by miner, ignoring case, and look the miner up. */
  method WorkersOf(s: Settings, fold: char -> char, pairs: seq<string>, miner: string) returns (r: seq<string>)
    ensures Represents(fold, r, WorkerNames(s, fold, pairs, miner))
  {
    hide Represents, Folded, ParseWorkerPair, AllWhite;
    r := [];
    NothingRepresents(fold);
    assert pairs[..0] == [];
    for i := 0 to |pairs|
      invariant Represents(fold, r, WorkerNames(s, fold, pairs[..i], miner))
    {
      var (m, w) := ParseWorkerPair(pairs[i]);
      ghost var all := WorkerNames(s, fold, pairs[..i], miner);
      assert pairs[..i + 1][..i] == pairs[..i];
      if !White(s, m) && !White(s, w) && Folded(fold, m) == Folded(fold, miner) {
        r := AddIgnoringCase(fold, r, w, all);
      } else {
        assert all + {} == all;
      }
    }
    assert pairs[..|pairs|] == pairs;
  }

  lemma NothingRepresents(fold: char -> char)
    ensures Represents(fold, [], {})
  {
  }

  lemma {:induction false} InWorkerNames(s: Settings, fold: char -> char, pairs: seq<string>, miner: string, x: string)
    ensures x in WorkerNames(s, fold, pairs, miner) <==>
      exists i :: 0 <= i < |pairs| && Gives(s, fold, pairs[i], miner) && ParseWorkerPair(pairs[i]).1 == x
    decreases |pairs|
  {
    hide Gives, ParseWorkerPair;
    if pairs != [] {
      var init := pairs[..|pairs| - 1];
      InWorkerNames(s, fold, init, miner, x);
      assert forall i | 0 <= i < |init| :: init[i] == pairs[i];
    }
  }

  // ---------- What a window's sets hold ----------

  function MinersOf(s: Settings, c: seq<ShareEvent>, pool: string, lo: int, hi: int): set<string> {
    set e | e in c && InPoolWindow(s, e, pool, lo, hi) && HasMiner(s, e) :: e.miner
  }

  function PairsOf(s: Settings, c: seq<ShareEvent>, pool: string, lo: int, hi: int): set<string> {
    set e | e in c && InPoolWindow(s, e, pool, lo, hi) && HasWorker(s, e) :: Pair(e.miner, e.worker)
  }

  function MinersOver(s: Settings, c: seq<ShareEvent>, pool: string, r: seq<int>): set<string> {
    if r == [] then {} else MinersOver(s, c, pool, r[..|r| - 1]) + SetOf(s, c, BucketMiners(pool, r[|r| - 1]))
  }

  function PairsOver(s: Settings, c: seq<ShareEvent>, pool: string, r: seq<int>): set<string> {
    if r == [] then {} else PairsOver(s, c, pool, r[..|r| - 1]) + SetOf(s, c, BucketWorkers(pool, r[|r| - 1]))
  }

  lemma {:induction false} InOver(s: Settings, c: seq<ShareEvent>, pool: string, r: seq<int>, x: string)
    ensures x in MinersOver(s, c, pool, r) <==> exists i :: 0 <= i < |r| && x in SetOf(s, c, BucketMiners(pool, r[i]))
    ensures x in PairsOver(s, c, pool, r) <==> exists i :: 0 <= i < |r| && x in SetOf(s, c, BucketWorkers(pool, r[i]))
    decreases |r|
  {
    hide SetOf;
    if r != [] {
      InOver(s, c, pool, r[..|r| - 1], x);
      assert forall i | 0 <= i < |r| - 1 :: r[..|r| - 1][i] == r[i];
    }
  }

  /** The sets of a window's buckets together name exactly its events' miners. */
  lemma MinersOverWindow(s: Settings, c: seq<ShareEvent>, pool: string, r: seq<int>, lo: int, hi: int)
    requires Tiles(s.bucket, r, lo, hi)
    ensures MinersOver(s, c, pool, r) == MinersOf(s, c, pool, lo, hi)
  {
    hide Encoded, BucketStart, AllWhite, SetOf, MinersOver, PairsOver;
    forall x ensures x in MinersOver(s, c, pool, r) <==> x in MinersOf(s, c, pool, lo, hi) {
      InOver(s, c, pool, r, x);
      if x in MinersOf(s, c, pool, lo, hi) {
        var e :| e in c && InPoolWindow(s, e, pool, lo, hi) && HasMiner(s, e) && e.miner == x;
        InSetOf(s, c, BucketMiners(pool, BucketOf(s, e)), x);
        assert x in Put(s, e, BucketMiners(pool, BucketOf(s, e)));
      }
      if x in MinersOver(s, c, pool, r) {
        var i :| 0 <= i < |r| && x in SetOf(s, c, BucketMiners(pool, r[i]));
        InSetOf(s, c, BucketMiners(pool, r[i]), x);
        var j :| 0 <= j < |c| && x in Put(s, c[j], BucketMiners(pool, r[i]));
        assert c[j] in c;
      }
    }
  }

  /** And their pairs of miner and worker. */
  lemma PairsOverWindow(s: Settings, c: seq<ShareEvent>, pool: string, r: seq<int>, lo: int, hi: int)
    requires Tiles(s.bucket, r, lo, hi)
    ensures PairsOver(s, c, pool, r) == PairsOf(s, c, pool, lo, hi)
  {
    hide Encoded, BucketStart, AllWhite, SetOf, MinersOver, PairsOver;
    forall x ensures x in PairsOver(s, c, pool, r) <==> x in PairsOf(s, c, pool, lo, hi) {
      InOver(s, c, pool, r, x);
      if x in PairsOf(s, c, pool, lo, hi) {
        var e :| e in c && InPoolWindow(s, e, pool, lo, hi) && HasWorker(s, e) && Pair(e.miner, e.worker) == x;
        InSetOf(s, c, BucketWorkers(pool, BucketOf(s, e)), x);
        assert x in Put(s, e, BucketWorkers(pool, BucketOf(s, e)));
      }
      if x in PairsOver(s, c, pool, r) {
        var i :| 0 <= i < |r| && x in SetOf(s, c, BucketWorkers(pool, r[i]));
        InSetOf(s, c, BucketWorkers(pool, r[i]), x);
        var j :| 0 <= j < |c| && x in Put(s, c[j], BucketWorkers(pool, r[i]));
        assert c[j] in c;
      }
    }
  }

  // ---------- Conservation across levels ----------

  function MinerKeys(pool: string, miners: seq<string>): (r: seq<Key>)
    ensures |r| == |miners| && forall i | 0 <= i < |r| :: r[i] == MinerBucket(pool, miners[i], 0)
  {
    seq(|miners|, i requires 0 <= i < |miners| => MinerBucket(pool, miners[i], 0))
  }

  function WorkerKeys(pool: string, miner: string, workers: seq<string>): (r: seq<Key>)
    ensures |r| == |workers| && forall i | 0 <= i < |r| :: r[i] == WorkerBucket(pool, miner, workers[i], 0)
  {
    seq(|workers|, i requires 0 <= i < |workers| => WorkerBucket(pool, miner, workers[i], 0))
  }

  // ---------- How often a name is listed ----------

  /** How many of the listed names have the key of this one. */
  function TimesListed(s: Settings, list: seq<string>, x: string): (n: nat) {
    if list == [] then 0
    else TimesListed(s, list[..|list| - 1], x) + if SamePool(s, x, list[|list| - 1]) then 1 else 0
  }

  lemma {:induction false} ListedNever(s: Settings, list: seq<string>, x: string)
    ensures TimesListed(s, list, x) == 0 <==> forall j | 0 <= j < |list| :: !SamePool(s, x, list[j])
    decreases |list|
  {
    hide SamePool;
    if list != [] {
      var init := list[..|list| - 1];
      ListedNever(s, init, x);
      assert forall j | 0 <= j < |init| :: init[j] == list[j];
    }
  }

  lemma {:induction false} ListedOnce(s: Settings, list: seq<string>, x: string, i: nat)
    requires i < |list| && forall j | 0 <= j < |list| :: SamePool(s, x, list[j]) <==> j == i
    ensures TimesListed(s, list, x) == 1
    decreases |list|
  {
    hide SamePool;
    var n := |list| - 1;
    var init := list[..n];
    assert forall j | 0 <= j < n :: init[j] == list[j];
    if i == n { ListedNever(s, init, x); } else { ListedOnce(s, init, x, i); }
  }

  lemma {:induction false} ListedTwice(s: Settings, list: seq<string>, x: string, i: nat, j: nat)
    requires i < j < |list| && SamePool(s, x, list[i]) && SamePool(s, x, list[j])
    ensures TimesListed(s, list, x) >= 2
    decreases |list|
  {
    hide SamePool;
    var n := |list| - 1;
    var init := list[..n];
    if j == n {
      ListedNever(s, init, x);
      assert SamePool(s, x, init[i]);
    } else {
      ListedTwice(s, init, x, i, j);
    }
  }

  /** A set that ignores case may keep any names that differ ignoring case. */
  lemma {:induction false} SomeList(fold: char -> char, start: seq<string>, all: set<string>) returns (list: seq<string>)
    requires forall i | 0 <= i < |start| :: start[i] in all
    requires forall i, j | 0 <= i < j < |start| :: Folded(fold, start[i]) != Folded(fold, start[j])
    ensures start <= list && Represents(fold, list, all)
    decreases |set x | x in all && x !in start|
  {
    hide Folded;
    if x :| x in all && forall i | 0 <= i < |start| :: Folded(fold, start[i]) != Folded(fold, x) {
      var more := start + [x];
      assert more[|start|] == x;
      var now, later := set y | y in all && y !in start, set y | y in all && y !in more;
      assert x in now && x !in later && later <= now;
      Fewer(later, now, x);
      list := SomeList(fold, more, all);
    } else {
      list := start;
    }
  }

  lemma Fewer<T>(a: set<T>, b: set<T>, x: T)
    requires a <= b && x in b && x !in a
    ensures |a| < |b|
  {
    assert a <= b - {x};
    Subset(a, b - {x});
  }

  lemma {:induction false} Subset<T>(a: set<T>, b: set<T>)
    requires a <= b
    ensures |a| <= |b|
    decreases a
  {
    if x :| x in a {
      Subset(a - {x}, b - {x});
    }
  }

  /** Or the other of two names that differ in case only. */
  lemma Swapped(fold: char -> char, list: seq<string>, all: set<string>, i: nat, x: string)
    requires Represents(fold, list, all) && i < |list| && x in all && Folded(fold, x) == Folded(fold, list[i])
    ensures Represents(fold, list[i := x], all)
  {
    hide Folded, Near;
    var r := list[i := x];
    forall y | y in all ensures Near(fold, r, y) {
      var j := NearWhere(fold, list, all, y);
      NearAt(fold, r, y, j);
    }
  }

  /** The names wanted have the key of another name exactly when they equal it ignoring
      case. */
  ghost predicate Agree(s: Settings, fold: char -> char, wanted: set<string>, all: set<string>) {
    forall x, y | x in wanted && y in all :: SamePool(s, x, y) <==> Folded(fold, x) == Folded(fold, y)
  }

  lemma AgreeIsOnce(s: Settings, fold: char -> char, wanted: set<string>, all: set<string>, list: seq<string>, x: string)
    requires wanted <= all && Agree(s, fold, wanted, all) && Represents(fold, list, all) && x in wanted
    ensures TimesListed(s, list, x) == 1
  {
    hide Folded, SamePool, Represents, TimesListed;
    var i := NearWhere(fold, list, all, x);
    forall j | 0 <= j < |list| ensures SamePool(s, x, list[j]) <==> j == i {
      ListIsIn(fold, list, all, j);
      assert SamePool(s, x, list[j]) <==> Folded(fold, x) == Folded(fold, list[j]);
    }
    ListedOnce(s, list, x, i);
  }

  lemma DisagreeIsNotOnce(s: Settings, fold: char -> char, all: set<string>, x: string, y: string) returns (list: seq<string>)
    requires x in all && y in all && !(SamePool(s, x, y) <==> Folded(fold, x) == Folded(fold, y))
    ensures Represents(fold, list, all) && TimesListed(s, list, x) != 1
  {
    hide Folded, Encoded, Represents, TimesListed;
    if SamePool(s, x, y) {
      list := SomeList(fold, [x, y], all);
      assert list[0] == x && list[1] == y;
      ListedTwice(s, list, x, 0, 1);
    } else {
      list := SomeList(fold, [y], all);
      assert list[0] == y;
      if TimesListed(s, list, x) == 1 {
        ListedNever(s, list, x);
        var j :| 0 <= j < |list| && SamePool(s, x, list[j]);
        Swapped(fold, list, all, 0, x);
        list := list[0 := x];
        ListedTwice(s, list, x, 0, j);
      }
    }
  }

  /** Whichever names the set keeps, each of the names wanted is listed once: exactly when
      they agree. */
  lemma OnceExactly(s: Settings, fold: char -> char, wanted: set<string>, all: set<string>)
    requires wanted <= all
    ensures (forall list, x | Represents(fold, list, all) && x in wanted :: TimesListed(s, list, x) == 1)
      <==> Agree(s, fold, wanted, all)
  {
    hide Folded, SamePool, Represents, TimesListed;
    if Agree(s, fold, wanted, all) {
      forall list, x | Represents(fold, list, all) && x in wanted ensures TimesListed(s, list, x) == 1 {
        AgreeIsOnce(s, fold, wanted, all, list, x);
      }
    } else {
      var x, y :| x in wanted && y in all && !(SamePool(s, x, y) <==> Folded(fold, x) == Folded(fold, y));
      var list := DisagreeIsNotOnce(s, fold, all, x, y);
    }
  }

  // ---------- Miners ----------

  /** The pool's events of the window that carry a miner, or a worker too. */
  predicate Mining(s: Settings, e: ShareEvent, pool: string, lo: int, hi: int) {
    InPoolWindow(s, e, pool, lo, hi) && HasMiner(s, e)
  }

  predicate Working(s: Settings, e: ShareEvent, pool: string, lo: int, hi: int) {
    InPoolWindow(s, e, pool, lo, hi) && HasWorker(s, e)
  }

  lemma BelongsToMiner(s: Settings, e: ShareEvent, pool: string, miner: string)
    ensures Belongs(s, e, MinerBucket(pool, miner, 0)) <==>
      SamePool(s, e.poolId, pool) && HasMiner(s, e) && SamePool(s, e.miner, miner)
  {
    hide Encoded, BucketOf, AllWhite;
  }

  /** How many of the listed counters an event is in. */
  lemma {:induction false} MinerListed(s: Settings, pool: string, miners: seq<string>, e: ShareEvent)
    ensures Listed(s, e, MinerKeys(pool, miners))
         == if SamePool(s, e.poolId, pool) && HasMiner(s, e) then TimesListed(s, miners, e.miner) else 0
    decreases |miners|
  {
    hide SamePool, AllWhite, Belongs;
    if miners != [] {
      var n := |miners| - 1;
      MinerListed(s, pool, miners[..n], e);
      BelongsToMiner(s, e, pool, miners[n]);
      assert MinerKeys(pool, miners)[..n] == MinerKeys(pool, miners[..n]);
    }
  }

  /** For any history: every list the set can produce has each event that carries a miner
      in exactly one listed counter, if and only if the window's names are equal ignoring
      case exactly when they are equal under Encode. */
  lemma MinersListedOnce(s: Settings, fold: char -> char, c: seq<ShareEvent>, pool: string, lo: int, hi: int)
    ensures
      var all := MinersOf(s, c, pool, lo, hi);
      (forall miners, e | Represents(fold, miners, all) && e in c && Mining(s, e, pool, lo, hi) ::
          Listed(s, e, MinerKeys(pool, miners)) == 1)
      <==> Agree(s, fold, all, all)
  {
    hide Folded, SamePool, Represents, TimesListed, Listed, InWindow, AllWhite, Agree;
    var all := MinersOf(s, c, pool, lo, hi);
    OnceExactly(s, fold, all, all);
    forall miners, e | Represents(fold, miners, all) && e in c && Mining(s, e, pool, lo, hi)
      ensures Listed(s, e, MinerKeys(pool, miners)) == TimesListed(s, miners, e.miner) && e.miner in all
    {
      MinerListed(s, pool, miners, e);
    }
    if !Agree(s, fold, all, all) {
      var miners, x :| Represents(fold, miners, all) && x in all && TimesListed(s, miners, x) != 1;
      var e :| e in c && Mining(s, e, pool, lo, hi) && e.miner == x;
      assert Listed(s, e, MinerKeys(pool, miners)) != 1;
    }
  }

  /** Under that condition the listed miners' counters add up to the pool's over the events
      that carry a miner. */
  lemma MinersConserve(s: Settings, fold: char -> char, c: seq<ShareEvent>, pool: string, lo: int, hi: int, miners: seq<string>)
    requires
      var all := MinersOf(s, c, pool, lo, hi);
      Represents(fold, miners, all) && Agree(s, fold, all, all)
    ensures SumKeys(s, c, MinerKeys(pool, miners), lo, hi)
         == Satisfying(s, c, (e: ShareEvent) => SamePool(s, e.poolId, pool) && HasMiner(s, e), lo, hi)
  {
    hide Represents, SumKeys, Listed, Satisfying, SamePool, AllWhite, InWindow, Agree, TimesListed;
    var ks, all := MinerKeys(pool, miners), MinersOf(s, c, pool, lo, hi);
    var q := (e: ShareEvent) => SamePool(s, e.poolId, pool) && HasMiner(s, e);
    forall e | e in c && InWindow(s, e, lo, hi) ensures Listed(s, e, ks) == if q(e) then 1 else 0 {
      MinerListed(s, pool, miners, e);
      if q(e) {
        assert e.miner in all;
        AgreeIsOnce(s, fold, all, all, miners, e.miner);
      }
    }
    Conservation(s, c, ks, q, lo, hi);
  }

  /** Of two names that differ in case only, and have keys no other name has, at most one is
      in a listed counter, in any history and any list: the events of the other are lost. */
  lemma CaseOnlyNamesAreLost(s: Settings, fold: char -> char, c: seq<ShareEvent>, e: ShareEvent, d: ShareEvent,
                             pool: string, lo: int, hi: int, miners: seq<string>)
    requires e in c && d in c && Mining(s, e, pool, lo, hi) && Mining(s, d, pool, lo, hi)
    requires Folded(fold, e.miner) == Folded(fold, d.miner) && e.miner != d.miner
    requires forall x | x in MinersOf(s, c, pool, lo, hi) ::
      (SamePool(s, e.miner, x) ==> x == e.miner) && (SamePool(s, d.miner, x) ==> x == d.miner)
    requires Represents(fold, miners, MinersOf(s, c, pool, lo, hi))
    ensures Listed(s, e, MinerKeys(pool, miners)) == 0 || Listed(s, d, MinerKeys(pool, miners)) == 0
  {
    hide Folded, Encoded, AllWhite, InWindow, Listed, TimesListed, MinersOf, Near;
    MinerListed(s, pool, miners, e);
    MinerListed(s, pool, miners, d);
    ListedNever(s, miners, e.miner);
    ListedNever(s, miners, d.miner);
    if TimesListed(s, miners, e.miner) > 0 {
      var i :| 0 <= i < |miners| && SamePool(s, e.miner, miners[i]);
      ListIsIn(fold, miners, MinersOf(s, c, pool, lo, hi), i);
      forall j | 0 <= j < |miners| ensures !SamePool(s, d.miner, miners[j]) {
        ListIsIn(fold, miners, MinersOf(s, c, pool, lo, hi), j);
        assert i != j ==> Folded(fold, miners[i]) != Folded(fold, miners[j]);
      }
    }
  }

  // ---------- Workers ----------

  /** Ignoring case leaves white space and the tab what they are. */
  ghost predicate LettersOnly(s: Settings, fold: char -> char) {
    forall a, b | fold(a) == fold(b) && (a == '\t' || s.cc.whiteSpace(a)) :: a == b
  }

  lemma FoldedAt(fold: char -> char, x: string, y: string, i: nat)
    requires Folded(fold, x) == Folded(fold, y) && i < |x|
    ensures |x| == |y| && fold(x[i]) == fold(y[i])
  {
    assert |Folded(fold, x)| == |Folded(fold, y)|;
    assert Folded(fold, x)[i] == Folded(fold, y)[i];
  }

  lemma FoldedWhite(s: Settings, fold: char -> char, x: string, y: string)
    requires LettersOnly(s, fold) && Folded(fold, x) == Folded(fold, y)
    ensures White(s, x) <==> White(s, y)
  {
    assert |Folded(fold, x)| == |Folded(fold, y)|;
    forall i | 0 <= i < |x| ensures s.cc.whiteSpace(x[i]) <==> s.cc.whiteSpace(y[i]) {
      FoldedAt(fold, x, y, i);
    }
  }

  lemma BlankIsWhite(s: Settings)
    ensures White(s, "")
  {
  }

  lemma FoldedPart(fold: char -> char, x: string, y: string, i: nat, j: nat)
    requires Folded(fold, x) == Folded(fold, y) && i <= j <= |x|
    ensures |x| == |y| && Folded(fold, x[i..j]) == Folded(fold, y[i..j])
  {
    assert |Folded(fold, x)| == |Folded(fold, y)|;
    forall k | i <= k < j ensures fold(x[k]) == fold(y[k]) { FoldedAt(fold, x, y, k); }
    assert |Folded(fold, x[i..j])| == |Folded(fold, y[i..j])|;
    forall k | 0 <= k < j - i ensures Folded(fold, x[i..j])[k] == Folded(fold, y[i..j])[k] {
      assert x[i..j][k] == x[i + k] && y[i..j][k] == y[i + k];
    }
  }

  lemma TabIndexIs(p: string, t: nat)
    requires t < |p| && p[t] == '\t' && '\t' !in p[..t]
    ensures TabIndex(p) == t
  {
    hide TabIndex;
    var i := TabIndex(p);
    assert forall k | 0 <= k < t :: p[k] == p[..t][k];
    assert forall k | 0 <= k < i :: p[k] == p[..i][k];
  }

  /** Pairs that are equal ignoring case are read alike. */
  lemma FoldedPairs(s: Settings, fold: char -> char, p: string, q: string, miner: string)
    requires LettersOnly(s, fold) && Folded(fold, p) == Folded(fold, q) && Gives(s, fold, p, miner)
    ensures Gives(s, fold, q, miner)
    ensures Folded(fold, ParseWorkerPair(p).1) == Folded(fold, ParseWorkerPair(q).1)
  {
    hide Folded, TabIndex, AllWhite;
    var t := TabIndex(p);
    BlankIsWhite(s);
    FoldedAt(fold, p, q, t);
    forall i | 0 <= i < t ensures q[i] != '\t' {
      FoldedAt(fold, p, q, i);
      assert p[i] == p[..t][i];
    }
    TabIndexIs(q, t);
    assert p[..t] == p[0..t] && q[..t] == q[0..t];
    FoldedPart(fold, p, q, 0, t);
    FoldedPart(fold, p, q, t + 1, |p|);
    assert p[t + 1..] == p[t + 1..|p|] && q[t + 1..] == q[t + 1..|q|];
    FoldedWhite(s, fold, p[..t], q[..t]);
    FoldedWhite(s, fold, p[t + 1..], q[t + 1..]);
  }

  /** The workers that may be listed for a miner: those the pairs give it. */
  ghost function Candidates(s: Settings, fold: char -> char, all: set<string>, miner: string): set<string> {
    set p | p in all && Gives(s, fold, p, miner) :: ParseWorkerPair(p).1
  }

  /** Whichever pairs and workers are kept, the workers listed represent the candidates. */
  lemma ListIsOfCandidates(s: Settings, fold: char -> char, all: set<string>, pairs: seq<string>, miner: string,
                           workers: seq<string>)
    requires LettersOnly(s, fold) && Represents(fold, pairs, all)
    requires Represents(fold, workers, WorkerNames(s, fold, pairs, miner))
    ensures Represents(fold, workers, Candidates(s, fold, all, miner))
  {
    hide Folded, Gives, WorkerNames, LettersOnly, ParseWorkerPair, Near;
    var names, candidates := WorkerNames(s, fold, pairs, miner), Candidates(s, fold, all, miner);
    forall i | 0 <= i < |workers| ensures workers[i] in candidates {
      InWorkerNames(s, fold, pairs, miner, workers[i]);
      var k :| 0 <= k < |pairs| && Gives(s, fold, pairs[k], miner) && ParseWorkerPair(pairs[k]).1 == workers[i];
    }
    forall x | x in candidates ensures Near(fold, workers, x) {
      var p :| p in all && Gives(s, fold, p, miner) && ParseWorkerPair(p).1 == x;
      var k := NearWhere(fold, pairs, all, p);
      FoldedPairs(s, fold, p, pairs[k], miner);
      var y := ParseWorkerPair(pairs[k]).1;
      InWorkerNames(s, fold, pairs, miner, y);
      var i := NearWhere(fold, workers, names, y);
      NearAt(fold, workers, x, i);
    }
  }

  /** For names of some of the candidates, pairs that give them. */
  lemma {:induction false} SomePairs(s: Settings, fold: char -> char, all: set<string>, miner: string, workers: seq<string>)
    returns (pairs: seq<string>)
    requires forall i | 0 <= i < |workers| :: workers[i] in Candidates(s, fold, all, miner)
    ensures |pairs| == |workers|
    ensures forall i | 0 <= i < |pairs| ::
      pairs[i] in all && Gives(s, fold, pairs[i], miner) && ParseWorkerPair(pairs[i]).1 == workers[i]
    decreases |workers|
  {
    hide Gives, ParseWorkerPair;
    pairs := [];
    if workers != [] {
      var n := |workers| - 1;
      var init := SomePairs(s, fold, all, miner, workers[..n]);
      assert workers[n] in Candidates(s, fold, all, miner);
      var p :| p in all && Gives(s, fold, p, miner) && ParseWorkerPair(p).1 == workers[n];
      pairs := init + [p];
    }
  }

  /** And every list that represents the candidates can come about. */
  lemma CandidatesCanBeListed(s: Settings, fold: char -> char, all: set<string>, miner: string, workers: seq<string>)
    returns (pairs: seq<string>)
    requires LettersOnly(s, fold) && Represents(fold, workers, Candidates(s, fold, all, miner))
    ensures Represents(fold, pairs, all) && Represents(fold, workers, WorkerNames(s, fold, pairs, miner))
  {
    hide Folded, Gives, WorkerNames, LettersOnly, ParseWorkerPair, Candidates, Near;
    var start := SomePairs(s, fold, all, miner, workers);
    forall i, j | 0 <= i < j < |start| ensures Folded(fold, start[i]) != Folded(fold, start[j]) {
      if Folded(fold, start[i]) == Folded(fold, start[j]) { FoldedPairs(s, fold, start[i], start[j], miner); }
    }
    pairs := SomeList(fold, start, all);
    forall i | 0 <= i < |workers| ensures workers[i] in WorkerNames(s, fold, pairs, miner) {
      assert pairs[i] == start[i];
      InWorkerNames(s, fold, pairs, miner, workers[i]);
    }
    forall x | x in WorkerNames(s, fold, pairs, miner) ensures Near(fold, workers, x) {
      NameIsCandidate(s, fold, all, pairs, miner, x);
    }
  }

  lemma NameIsCandidate(s: Settings, fold: char -> char, all: set<string>, pairs: seq<string>, miner: string, x: string)
    requires Represents(fold, pairs, all) && x in WorkerNames(s, fold, pairs, miner)
    ensures x in Candidates(s, fold, all, miner)
  {
    hide Folded, Gives, WorkerNames, ParseWorkerPair, Near;
    InWorkerNames(s, fold, pairs, miner, x);
    var k :| 0 <= k < |pairs| && Gives(s, fold, pairs[k], miner) && ParseWorkerPair(pairs[k]).1 == x;
  }

  /** The window's events of a miner that carry a worker, and their workers. */
  predicate WorksFor(s: Settings, e: ShareEvent, pool: string, lo: int, hi: int, miner: string) {
    Working(s, e, pool, lo, hi) && SamePool(s, e.miner, miner)
  }

  function WorkersOfMiner(s: Settings, c: seq<ShareEvent>, pool: string, lo: int, hi: int, miner: string): set<string> {
    set e | e in c && WorksFor(s, e, pool, lo, hi, miner) :: e.worker
  }

  /** None of these events has a tab in its miner's name, and their workers are equal to
      another candidate ignoring case exactly when they are under Encode. */
  ghost predicate WorkersAgree(s: Settings, fold: char -> char, c: seq<ShareEvent>, pool: string, lo: int, hi: int, miner: string) {
    && (forall e | e in c && WorksFor(s, e, pool, lo, hi, miner) :: '\t' !in e.miner)
    && Agree(s, fold, WorkersOfMiner(s, c, pool, lo, hi, miner), Candidates(s, fold, PairsOf(s, c, pool, lo, hi), miner))
  }

  lemma BelongsToWorker(s: Settings, e: ShareEvent, pool: string, miner: string, worker: string)
    ensures Belongs(s, e, WorkerBucket(pool, miner, worker, 0)) <==>
      SamePool(s, e.poolId, pool) && HasWorker(s, e) && SamePool(s, e.miner, miner) && SamePool(s, e.worker, worker)
  {
    hide Encoded, BucketOf, AllWhite;
  }

  lemma {:induction false} WorkerListed(s: Settings, pool: string, miner: string, workers: seq<string>, e: ShareEvent)
    ensures Listed(s, e, WorkerKeys(pool, miner, workers))
         == if SamePool(s, e.poolId, pool) && HasWorker(s, e) && SamePool(s, e.miner, miner)
            then TimesListed(s, workers, e.worker) else 0
    decreases |workers|
  {
    hide SamePool, AllWhite, Belongs;
    if workers != [] {
      var n := |workers| - 1;
      WorkerListed(s, pool, miner, workers[..n], e);
      BelongsToWorker(s, e, pool, miner, workers[n]);
      assert WorkerKeys(pool, miner, workers)[..n] == WorkerKeys(pool, miner, workers[..n]);
    }
  }

  /** A miner's event gives the miner its worker, unless the miner's name has a tab. */
  lemma WorkerIsCandidate(s: Settings, fold: char -> char, c: seq<ShareEvent>, pool: string, lo: int, hi: int,
                          miner: string, e: ShareEvent)
    requires
      var all := MinersOf(s, c, pool, lo, hi);
      Agree(s, fold, all, all) && miner in all
    requires e in c && WorksFor(s, e, pool, lo, hi, miner) && '\t' !in e.miner
    ensures e.worker in Candidates(s, fold, PairsOf(s, c, pool, lo, hi), miner)
  {
    hide Folded, SamePool, AllWhite, InWindow, ParseWorkerPair, Pair;
    var p := Pair(e.miner, e.worker);
    PairInverts(e.miner, e.worker);
    assert e.miner in MinersOf(s, c, pool, lo, hi);
    assert p in PairsOf(s, c, pool, lo, hi) && Gives(s, fold, p, miner);
  }

  lemma NoTabGiven(s: Settings, fold: char -> char, p: string, miner: string)
    requires LettersOnly(s, fold) && Gives(s, fold, p, miner)
    ensures '\t' !in miner
  {
    hide Folded, TabIndex, AllWhite;
    BlankIsWhite(s);
    var m := p[..TabIndex(p)];
    forall i | 0 <= i < |miner| ensures miner[i] != '\t' {
      FoldedAt(fold, miner, m, i);
      assert m[i] in m;
    }
  }

  /** With a tab in the miner's name no pair gives it a worker. */
  lemma TabGivesNone(s: Settings, fold: char -> char, all: set<string>, miner: string, name: string)
    requires LettersOnly(s, fold) && Folded(fold, name) == Folded(fold, miner) && '\t' in name
    ensures Candidates(s, fold, all, miner) == {}
  {
    hide Folded, Gives;
    var i :| 0 <= i < |name| && name[i] == '\t';
    FoldedAt(fold, name, miner, i);
    forall p | p in all ensures !Gives(s, fold, p, miner) {
      if Gives(s, fold, p, miner) { NoTabGiven(s, fold, p, miner); }
    }
  }

  /** For any history in which the miners are listed once: every list the sets can produce
      for a listed miner has each of its events that carries a worker in exactly one listed
      counter, if and only if its workers agree. */
  lemma WorkersListedOnce(s: Settings, fold: char -> char, c: seq<ShareEvent>, pool: string, lo: int, hi: int, miner: string)
    requires LettersOnly(s, fold)
    requires
      var all := MinersOf(s, c, pool, lo, hi);
      Agree(s, fold, all, all) && miner in all
    ensures
      var all := PairsOf(s, c, pool, lo, hi);
      (forall pairs, workers, e | Represents(fold, pairs, all) && Represents(fold, workers, WorkerNames(s, fold, pairs, miner))
          && e in c && WorksFor(s, e, pool, lo, hi, miner) :: Listed(s, e, WorkerKeys(pool, miner, workers)) == 1)
      <==> WorkersAgree(s, fold, c, pool, lo, hi, miner)
  {
    hide Folded, SamePool, Represents, TimesListed, Listed, InWindow, AllWhite, Agree, WorkerNames, LettersOnly, MinersOf,
         PairsOf, Candidates, WorkersOfMiner, Working;
    if WorkersAgree(s, fold, c, pool, lo, hi, miner) {
      forall pairs, workers, e | Represents(fold, pairs, PairsOf(s, c, pool, lo, hi))
          && Represents(fold, workers, WorkerNames(s, fold, pairs, miner))
          && e in c && WorksFor(s, e, pool, lo, hi, miner) ensures Listed(s, e, WorkerKeys(pool, miner, workers)) == 1 {
        WorkerOnce(s, fold, c, pool, lo, hi, miner, pairs, workers, e);
      }
    } else {
      var pairs, workers, e := NotOnce(s, fold, c, pool, lo, hi, miner);
    }
  }

  lemma CandidatesInclude(s: Settings, fold: char -> char, c: seq<ShareEvent>, pool: string, lo: int, hi: int, miner: string)
    requires
      var all := MinersOf(s, c, pool, lo, hi);
      Agree(s, fold, all, all) && miner in all
    requires forall e | e in c && WorksFor(s, e, pool, lo, hi, miner) :: '\t' !in e.miner
    ensures WorkersOfMiner(s, c, pool, lo, hi, miner) <= Candidates(s, fold, PairsOf(s, c, pool, lo, hi), miner)
  {
    hide Folded, WorksFor, Agree, MinersOf, PairsOf, Candidates;
    forall x | x in WorkersOfMiner(s, c, pool, lo, hi, miner)
      ensures x in Candidates(s, fold, PairsOf(s, c, pool, lo, hi), miner)
    {
      var e :| e in c && WorksFor(s, e, pool, lo, hi, miner) && e.worker == x;
      WorkerIsCandidate(s, fold, c, pool, lo, hi, miner, e);
    }
  }

  lemma WorkerOnce(s: Settings, fold: char -> char, c: seq<ShareEvent>, pool: string, lo: int, hi: int, miner: string,
                   pairs: seq<string>, workers: seq<string>, e: ShareEvent)
    requires LettersOnly(s, fold) && WorkersAgree(s, fold, c, pool, lo, hi, miner)
    requires
      var all := MinersOf(s, c, pool, lo, hi);
      Agree(s, fold, all, all) && miner in all
    requires Represents(fold, pairs, PairsOf(s, c, pool, lo, hi))
    requires Represents(fold, workers, WorkerNames(s, fold, pairs, miner))
    requires e in c && WorksFor(s, e, pool, lo, hi, miner)
    ensures Listed(s, e, WorkerKeys(pool, miner, workers)) == 1
  {
    hide Folded, SamePool, Represents, TimesListed, Listed, InWindow, AllWhite, Agree, WorkerNames, LettersOnly, MinersOf,
         PairsOf, Candidates;
    var all := PairsOf(s, c, pool, lo, hi);
    CandidatesInclude(s, fold, c, pool, lo, hi, miner);
    ListIsOfCandidates(s, fold, all, pairs, miner, workers);
    assert e.worker in WorkersOfMiner(s, c, pool, lo, hi, miner);
    AgreeIsOnce(s, fold, WorkersOfMiner(s, c, pool, lo, hi, miner), Candidates(s, fold, all, miner), workers, e.worker);
    WorkerListed(s, pool, miner, workers, e);
  }

  lemma NotOnce(s: Settings, fold: char -> char, c: seq<ShareEvent>, pool: string, lo: int, hi: int, miner: string)
    returns (pairs: seq<string>, workers: seq<string>, e: ShareEvent)
    requires LettersOnly(s, fold) && !WorkersAgree(s, fold, c, pool, lo, hi, miner)
    requires
      var all := MinersOf(s, c, pool, lo, hi);
      Agree(s, fold, all, all) && miner in all
    ensures Represents(fold, pairs, PairsOf(s, c, pool, lo, hi))
    ensures Represents(fold, workers, WorkerNames(s, fold, pairs, miner))
    ensures e in c && WorksFor(s, e, pool, lo, hi, miner)
    ensures Listed(s, e, WorkerKeys(pool, miner, workers)) != 1
  {
    hide Folded, SamePool, Represents, TimesListed, Listed, InWindow, AllWhite, WorkerNames, LettersOnly, MinersOf,
         PairsOf, Candidates, Working, Agree;
    var all := PairsOf(s, c, pool, lo, hi);
    if d :| d in c && WorksFor(s, d, pool, lo, hi, miner) && '\t' in d.miner {
      e, workers := d, [];
      SameKeySameFold(s, fold, c, pool, lo, hi, miner, e);
      TabGivesNone(s, fold, all, miner, e.miner);
      NothingRepresents(fold);
    } else {
      CandidatesInclude(s, fold, c, pool, lo, hi, miner);
      var wanted, candidates := WorkersOfMiner(s, c, pool, lo, hi, miner), Candidates(s, fold, all, miner);
      var x, y := Disagreeing(s, fold, wanted, candidates);
      workers := DisagreeIsNotOnce(s, fold, candidates, x, y);
      e :| e in c && WorksFor(s, e, pool, lo, hi, miner) && e.worker == x;
    }
    pairs := CandidatesCanBeListed(s, fold, all, miner, workers);
    WorkerListed(s, pool, miner, workers, e);
    assert workers == [] ==> TimesListed(s, workers, e.worker) == 0 by { ListedNever(s, workers, e.worker); }
  }

  lemma Disagreeing(s: Settings, fold: char -> char, wanted: set<string>, all: set<string>) returns (x: string, y: string)
    requires !Agree(s, fold, wanted, all)
    ensures x in wanted && y in all && !(SamePool(s, x, y) <==> Folded(fold, x) == Folded(fold, y))
  {
    hide SamePool, Folded;
    x, y :| x in wanted && y in all && !(SamePool(s, x, y) <==> Folded(fold, x) == Folded(fold, y));
  }

  lemma SameKeySameFold(s: Settings, fold: char -> char, c: seq<ShareEvent>, pool: string, lo: int, hi: int, miner: string,
                        e: ShareEvent)
    requires
      var all := MinersOf(s, c, pool, lo, hi);
      Agree(s, fold, all, all) && miner in all
    requires e in c && WorksFor(s, e, pool, lo, hi, miner)
    ensures Folded(fold, e.miner) == Folded(fold, miner)
  {
    hide Folded, SamePool, AllWhite, InWindow;
    assert e.miner in MinersOf(s, c, pool, lo, hi);
  }

  /** Under that condition a miner's listed workers add up to the miner's counter over its
      events that carry a worker. */
  lemma WorkersConserve(s: Settings, fold: char -> char, c: seq<ShareEvent>, pool: string, lo: int, hi: int,
                        pairs: seq<string>, miner: string, workers: seq<string>)
    requires LettersOnly(s, fold) && WorkersAgree(s, fold, c, pool, lo, hi, miner)
    requires
      var all := MinersOf(s, c, pool, lo, hi);
      Agree(s, fold, all, all) && miner in all
    requires Represents(fold, pairs, PairsOf(s, c, pool, lo, hi))
    requires Represents(fold, workers, WorkerNames(s, fold, pairs, miner))
    ensures SumKeys(s, c, WorkerKeys(pool, miner, workers), lo, hi)
         == Satisfying(s, c, (e: ShareEvent) => SamePool(s, e.poolId, pool) && HasWorker(s, e) && SamePool(s, e.miner, miner), lo, hi)
  {
    hide Represents, MinersOf, PairsOf, WorkersAgree, WorkerNames, WorkersOfMiner, SumKeys, Listed, Satisfying, SamePool, AllWhite,
         InWindow, Agree, LettersOnly, TimesListed;
    var ks := WorkerKeys(pool, miner, workers);
    var q := (e: ShareEvent) => SamePool(s, e.poolId, pool) && HasWorker(s, e) && SamePool(s, e.miner, miner);
    forall e | e in c && InWindow(s, e, lo, hi) ensures Listed(s, e, ks) == if q(e) then 1 else 0 {
      WorkerListed(s, pool, miner, workers, e);
      if q(e) { WorkerOnce(s, fold, c, pool, lo, hi, miner, pairs, workers, e); }
    }
    Conservation(s, c, ks, q, lo, hi);
  }

  lemma ListIsIn(fold: char -> char, list: seq<string>, all: set<string>, i: nat)
    requires Represents(fold, list, all) && i < |list|
    ensures list[i] in all
  {
  }

  // ---------- Names for which they fail ----------

  const ASCII := CharClass(
    c => 'a' <= c <= 'z' || 'A' <= c <= 'Z' || '0' <= c <= '9',
    c => c == ' ' || c == '\t' || c == '\r' || c == '\n')

  function Lower(c: char): char {
    if 'A' <= c <= 'Z' then (c as int + 32) as char else c
  }

  const SECONDS := Settings(ASCII, 600, 60)

  function Mined(id: string, miner: string): ShareEvent {
    ShareEvent(id, ShareAccepted, "p", miner, "w", "n", 0, None, 1.0, 1.0, 1.0, "", "", "", "", 0.0, "")
  }

  lemma AsciiIsSane()
    ensures Sane(ASCII) && LettersOnly(SECONDS, Lower)
  {
  }

  lemma MinedInWindow(id: string, miner: string)
    requires !AllWhite(ASCII, miner)
    ensures Mining(SECONDS, Mined(id, miner), "p", 0, 0) && Working(SECONDS, Mined(id, miner), "p", 0, 0)
  {
    hide Encoded, AllWhite;
    assert !AllWhite(ASCII, "w") by { NotBlank("w"); }
  }

  lemma NotBlank(name: string)
    requires name != "" && Safe(ASCII, name[0])
    ensures !AllWhite(ASCII, name)
  {
  }

  /** A name of one letter or digit is its own encoding. */
  lemma LetterEncodes(name: string)
    requires |name| == 1 && Safe(ASCII, name[0])
    ensures Encoded(ASCII, name) == name
  {
    NotBlank(name);
    assert TrimStart(ASCII, name) == name && TrimEnd(ASCII, name) == name;
    assert Replace(ASCII, name) == name;
  }

  lemma LettersFold(x: string, y: string)
    requires |x| == 1 && |y| == 1 && Lower(x[0]) == Lower(y[0])
    ensures Folded(Lower, x) == Folded(Lower, y)
  {
    hide Lower;
    assert Folded(Lower, x)[0] == Folded(Lower, y)[0];
  }

  lemma MinerIsNamed(c: seq<ShareEvent>, e: ShareEvent)
    requires e in c && Mining(SECONDS, e, "p", 0, 0)
    ensures e.miner in MinersOf(SECONDS, c, "p", 0, 0)
  {
    hide InPoolWindow, AllWhite;
  }

  /** Two miners that differ in case only. */
  lemma CaseOnlyExample() returns (c: seq<ShareEvent>)
    ensures
      var e, d, all := Mined("1", "A"), Mined("2", "a"), MinersOf(SECONDS, c, "p", 0, 0);
      && c == [e, d] && Mining(SECONDS, e, "p", 0, 0) && Mining(SECONDS, d, "p", 0, 0)
      && Folded(Lower, e.miner) == Folded(Lower, d.miner) && e.miner != d.miner
      && (forall x | x in all ::
            (SamePool(SECONDS, e.miner, x) ==> x == e.miner) && (SamePool(SECONDS, d.miner, x) ==> x == d.miner))
      && !Agree(SECONDS, Lower, all, all)
  {
    hide Encoded, AllWhite, InPoolWindow;
    var e, d := Mined("1", "A"), Mined("2", "a");
    c := [e, d];
    LetterEncodes("A");
    LetterEncodes("a");
    NotBlank("A");
    NotBlank("a");
    MinedInWindow("1", "A");
    MinedInWindow("2", "a");
    assert c[0] == e && c[1] == d;
    MinerIsNamed(c, e);
    MinerIsNamed(c, d);
    LettersFold("A", "a");
    assert "A"[0] != "a"[0];
  }

  /** A miner with a tab in its name. */
  lemma TabExample() returns (c: seq<ShareEvent>)
    ensures
      var miner, all := "x\ty", MinersOf(SECONDS, c, "p", 0, 0);
      && c == [Mined("1", miner)] && miner in all
      && LettersOnly(SECONDS, Lower) && Agree(SECONDS, Lower, all, all)
      && !WorkersAgree(SECONDS, Lower, c, "p", 0, 0, miner)
  {
    hide Encoded, AllWhite, InPoolWindow, Folded, LettersOnly, Lower, PairsOf, Candidates;
    var miner := "x\ty";
    var e := Mined("1", miner);
    c := [e];
    AsciiIsSane();
    NotBlank(miner);
    MinedInWindow("1", miner);
    assert c[0] == e && miner[1] == '\t';
    MinerIsNamed(c, e);
    assert MinersOf(SECONDS, c, "p", 0, 0) == {miner};
    assert WorksFor(SECONDS, e, "p", 0, 0, miner);
  }
}
