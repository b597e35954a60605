/** RedisLiveKeyNames: how names are encoded into live keys, and that no two different
    things share a key. */
module KeyNames {
  import opened SegmentNames

  /** char.IsLetterOrDigit and char.IsWhiteSpace, of which only this much is used. */
  datatype CharClass = CharClass(letterOrDigit: char -> bool, whiteSpace: char -> bool)

  ghost predicate Sane(cc: CharClass) {
    && !cc.letterOrDigit(':')
    && (forall c :: Safe(cc, c) ==> !cc.whiteSpace(c))
  }

  /** The characters Encode keeps. */
  predicate Safe(cc: CharClass, c: char) {
    cc.letterOrDigit(c) || c == '-' || c == '_' || c == '.'
  }

  predicate AllSafe(cc: CharClass, s: string) {
    forall i | 0 <= i < |s| :: Safe(cc, s[i])
  }

  predicate AllWhite(cc: CharClass, s: string) {
    forall i | 0 <= i < |s| :: cc.whiteSpace(s[i])
  }

  function TrimStart(cc: CharClass, s: string): (r: string)
    ensures !AllWhite(cc, s) ==> r != [] && !cc.whiteSpace(r[0]) && !AllWhite(cc, r)
  {
    if s == [] || !cc.whiteSpace(s[0]) then s else TrimStart(cc, s[1..])
  }

  function TrimEnd(cc: CharClass, s: string): (r: string)
    ensures !AllWhite(cc, s) ==> r != []
  {
    if s == [] || !cc.whiteSpace(s[|s| - 1]) then s else TrimEnd(cc, s[..|s| - 1])
  }

  function Replace(cc: CharClass, s: string): (r: string)
    ensures |r| == |s| && forall i | 0 <= i < |s| :: r[i] == if Safe(cc, s[i]) then s[i] else '_'
  {
    seq(|s|, i requires 0 <= i < |s| => if Safe(cc, s[i]) then s[i] else '_')
  }

  function Encoded(cc: CharClass, value: string): string {
    if AllWhite(cc, value) then "_" else Replace(cc, TrimEnd(cc, TrimStart(cc, value)))
  }

  method Encode(cc: CharClass, value: string) returns (r: string)
    ensures r == Encoded(cc, value)
  {
    if AllWhite(cc, value) {
      return "_";
    }
    var trimmed := TrimEnd(cc, TrimStart(cc, value));
    r := "";
    for i := 0 to |trimmed|
      invariant |r| == i && forall j | 0 <= j < i :: r[j] == if Safe(cc, trimmed[j]) then trimmed[j] else '_'
    {
      if cc.letterOrDigit(trimmed[i]) || trimmed[i] == '-' || trimmed[i] == '_' || trimmed[i] == '.' {
        r := r + [trimmed[i]];
      } else {
        r := r + ['_'];
      }
    }
    assert r == Replace(cc, trimmed);
    if |r| == 0 {
      r := "_";
    }
  }

  /** An encoded name is never empty and holds only safe characters, so no ':'; names of
      that kind are exactly the ones encoding leaves alone; and encoding is idempotent. */
  lemma EncodedIsSafe(cc: CharClass, value: string)
    requires Sane(cc)
    ensures
      var r := Encoded(cc, value);
      && r != [] && AllSafe(cc, r) && ':' !in r
      && Encoded(cc, r) == r
      && (r == value <==> value != [] && AllSafe(cc, value))
  {
    var r := Encoded(cc, value);
    SafeIsFixed(cc, r);
    if value != [] && AllSafe(cc, value) { SafeIsFixed(cc, value); }
  }

  lemma SafeIsFixed(cc: CharClass, s: string)
    requires Sane(cc) && s != [] && AllSafe(cc, s)
    ensures Encoded(cc, s) == s
  {
    assert !cc.whiteSpace(s[0]) && !cc.whiteSpace(s[|s| - 1]);
    assert Replace(cc, s) == s;
  }

  lemma {:induction false} TrimmedInFront(cc: CharClass, front: string, core: string)
    requires AllWhite(cc, front) && core != [] && !cc.whiteSpace(core[0])
    ensures TrimStart(cc, front + core) == core
    decreases |front|
  {
    if front == [] {
      assert front + core == core;
    } else {
      assert (front + core)[1..] == front[1..] + core;
      TrimmedInFront(cc, front[1..], core);
    }
  }

  lemma {:induction false} TrimmedBehind(cc: CharClass, core: string, back: string)
    requires AllWhite(cc, back) && core != [] && !cc.whiteSpace(core[|core| - 1])
    ensures TrimEnd(cc, core + back) == core
    decreases |back|
  {
    if back == [] {
      assert core + back == core;
    } else {
      var s := core + back;
      assert s[|s| - 1] == back[|back| - 1] && s[..|s| - 1] == core + back[..|back| - 1];
      TrimmedBehind(cc, core, back[..|back| - 1]);
    }
  }

  /** Encoding, character by character: white space in front of a name and behind it goes,
      letters, digits, '-', '_' and '.' stay, every other character becomes '_'. A name of
      white space, or none, is "_". */
  lemma EncodedIs(cc: CharClass, front: string, core: string, back: string)
    requires AllWhite(cc, front) && AllWhite(cc, back)
    requires core != [] && !cc.whiteSpace(core[0]) && !cc.whiteSpace(core[|core| - 1])
    ensures Encoded(cc, front + core + back) == Encoded(cc, core) && |Encoded(cc, core)| == |core|
    ensures forall i | 0 <= i < |core| ::
      Encoded(cc, core)[i] == if cc.letterOrDigit(core[i]) || core[i] == '-' || core[i] == '_' || core[i] == '.' then core[i] else '_'
    ensures Encoded(cc, front) == "_"
  {
    hide Encoded, TrimStart, TrimEnd, Replace;
    EncodedTrims(cc, front, core, back);
    EncodedTrims(cc, [], core, []);
    assert [] + core + [] == core;
    BlankEncodes(cc, front);
  }

  lemma BlankEncodes(cc: CharClass, s: string)
    requires AllWhite(cc, s)
    ensures Encoded(cc, s) == "_"
  {
  }

  lemma EncodedTrims(cc: CharClass, front: string, core: string, back: string)
    requires AllWhite(cc, front) && AllWhite(cc, back)
    requires core != [] && !cc.whiteSpace(core[0]) && !cc.whiteSpace(core[|core| - 1])
    ensures Encoded(cc, front + core + back) == Replace(cc, core)
  {
    hide TrimStart, TrimEnd, Replace;
    var s := front + core + back;
    assert s[|front|] == core[0];
    assert front + (core + back) == s;
    TrimmedInFront(cc, front, core + back);
    TrimmedBehind(cc, core, back);
  }

  // ---------- Keys ----------

  datatype Key =
    | Status(pool: string)
    | Summary(pool: string)
    | TopMiners(pool: string)
    | WorkersLastSeen(pool: string)
    | MinerWorkers(pool: string, miner: string)
    | ActiveMinerWorkers(pool: string, miner: string)
    | MinerSummary(pool: string, miner: string)
    | WorkerSummary(pool: string, miner: string, worker: string)
    | PoolBucket(pool: string, timestamp: int)
    | BucketMiners(pool: string, timestamp: int)
    | BucketWorkers(pool: string, timestamp: int)
    | SeenEvents(pool: string, timestamp: int)
    | MinerBucket(pool: string, miner: string, timestamp: int)
    | WorkerBucket(pool: string, miner: string, worker: string, timestamp: int)

  /** The key with its names encoded: what a key can tell. */
  function Canonical(cc: CharClass, k: Key): Key {
    var p := Encoded(cc, k.pool);
    match k
    case Status(_) => Status(p)
    case Summary(_) => Summary(p)
    case TopMiners(_) => TopMiners(p)
    case WorkersLastSeen(_) => WorkersLastSeen(p)
    case MinerWorkers(_, m) => MinerWorkers(p, Encoded(cc, m))
    case ActiveMinerWorkers(_, m) => ActiveMinerWorkers(p, Encoded(cc, m))
    case MinerSummary(_, m) => MinerSummary(p, Encoded(cc, m))
    case WorkerSummary(_, m, w) => WorkerSummary(p, Encoded(cc, m), Encoded(cc, w))
    case PoolBucket(_, t) => PoolBucket(p, t)
    case BucketMiners(_, t) => BucketMiners(p, t)
    case BucketWorkers(_, t) => BucketWorkers(p, t)
    case SeenEvents(_, t) => SeenEvents(p, t)
    case MinerBucket(_, m, t) => MinerBucket(p, Encoded(cc, m), t)
    case WorkerBucket(_, m, w, t) => WorkerBucket(p, Encoded(cc, m), Encoded(cc, w), t)
  }

  function Decimal(n: nat): (s: string)
    ensures |s| > 0 && AllDigits(s)
  {
    if n < 10 then [Digit(n)] else Decimal(n / 10) + [Digit(n % 10)]
  }

  /** A long as text. */
  function Number(t: int): string {
    if t < 0 then "-" + Decimal(-t) else Decimal(t)
  }

  function Rest(cc: CharClass, k: Key): (r: seq<string>)
    ensures r != []
  {
    match k
    case Status(_) => ["status"]
    case Summary(_) => ["summary"]
    case TopMiners(_) => ["miners", "top"]
    case WorkersLastSeen(_) => ["workers", "lastseen"]
    case MinerWorkers(_, m) => ["miner", Encoded(cc, m), "workers"]
    case ActiveMinerWorkers(_, m) => ["miner", Encoded(cc, m), "workers", "active"]
    case MinerSummary(_, m) => ["miner", Encoded(cc, m), "summary"]
    case WorkerSummary(_, m, w) => ["worker", Encoded(cc, m), Encoded(cc, w), "summary"]
    case PoolBucket(_, t) => ["bucket", Number(t), "summary"]
    case BucketMiners(_, t) => ["bucket", Number(t), "miners"]
    case BucketWorkers(_, t) => ["bucket", Number(t), "workers"]
    case SeenEvents(_, t) => ["seen", Number(t)]
    case MinerBucket(_, m, t) => ["miner", Encoded(cc, m), "bucket", Number(t)]
    case WorkerBucket(_, m, w, t) => ["worker", Encoded(cc, m), Encoded(cc, w), "bucket", Number(t)]
  }

  function Join(fields: seq<string>): string
    requires fields != []
  {
    if |fields| == 1 then fields[0] else fields[0] + ":" + Join(fields[1..])
  }

  function Fields(cc: CharClass, k: Key): (r: seq<string>)
    ensures |r| >= 4
  {
    ["hashstorm", "live", Encoded(cc, k.pool)] + Rest(cc, k)
  }

  function KeyName(cc: CharClass, k: Key): string {
    Join(Fields(cc, k))
  }

  function PoolPrefix(cc: CharClass, pool: string): string {
    "hashstorm:live:" + Encoded(cc, pool) + ":"
  }

  /** The text of every kind of key. */
  function Text(cc: CharClass, k: Key): string {
    var p := "hashstorm:live:" + Encoded(cc, k.pool) + ":";
    match k
    case Status(_) => p + "status"
    case Summary(_) => p + "summary"
    case TopMiners(_) => p + "miners:top"
    case WorkersLastSeen(_) => p + "workers:lastseen"
    case MinerWorkers(_, m) => p + "miner:" + Encoded(cc, m) + ":workers"
    case ActiveMinerWorkers(_, m) => p + "miner:" + Encoded(cc, m) + ":workers:active"
    case MinerSummary(_, m) => p + "miner:" + Encoded(cc, m) + ":summary"
    case WorkerSummary(_, m, w) => p + "worker:" + Encoded(cc, m) + ":" + Encoded(cc, w) + ":summary"
    case PoolBucket(_, t) => p + "bucket:" + Number(t) + ":summary"
    case BucketMiners(_, t) => p + "bucket:" + Number(t) + ":miners"
    case BucketWorkers(_, t) => p + "bucket:" + Number(t) + ":workers"
    case SeenEvents(_, t) => p + "seen:" + Number(t)
    case MinerBucket(_, m, t) => p + "miner:" + Encoded(cc, m) + ":bucket:" + Number(t)
    case WorkerBucket(_, m, w, t) => p + "worker:" + Encoded(cc, m) + ":" + Encoded(cc, w) + ":bucket:" + Number(t)
  }

  lemma JoinTwo(a: string, b: string)
    ensures Join([a, b]) == a + ":" + b
  {
    assert [a, b][1..] == [b];
  }

  lemma JoinThree(a: string, b: string, c: string)
    ensures Join([a, b, c]) == a + ":" + b + ":" + c
  {
    JoinTwo(b, c);
    assert [a, b, c][1..] == [b, c];
    assert a + ":" + (b + ":" + c) == a + ":" + b + ":" + c;
  }

  lemma JoinFour(a: string, b: string, c: string, d: string)
    ensures Join([a, b, c, d]) == a + ":" + b + ":" + c + ":" + d
  {
    JoinThree(b, c, d);
    assert [a, b, c, d][1..] == [b, c, d];
    assert a + ":" + (b + ":" + c + ":" + d) == a + ":" + b + ":" + c + ":" + d;
  }

  lemma JoinFive(a: string, b: string, c: string, d: string, e: string)
    ensures Join([a, b, c, d, e]) == a + ":" + b + ":" + c + ":" + d + ":" + e
  {
    JoinFour(b, c, d, e);
    assert [a, b, c, d, e][1..] == [b, c, d, e];
    assert a + ":" + (b + ":" + c + ":" + d + ":" + e) == a + ":" + b + ":" + c + ":" + d + ":" + e;
  }

  predicate ColonFree(fields: seq<string>) {
    forall i | 0 <= i < |fields| :: ':' !in fields[i]
  }

  // ---------- Texts and fields ----------

  /** The texts before and after the first ':' are determined. */
  lemma FirstColon(a: string, x: string, b: string, y: string)
    requires ':' !in a && ':' !in b && a + ":" + x == b + ":" + y
    ensures a == b && x == y
  {
    var s := a + ":" + x;
    assert s[|a|] == ':' && s[|b|] == ':';
    assert a == s[..|a|] && b == s[..|b|];
    assert x == s[|a| + 1..] && y == s[|b| + 1..];
  }

  lemma ColonIn(fs: seq<string>)
    requires fs != [] && ColonFree(fs)
    ensures ':' in Join(fs) <==> |fs| > 1
  {
    if |fs| > 1 {
      assert Join(fs)[|fs[0]|] == ':';
    }
  }

  lemma {:induction false} JoinInjective(fs: seq<string>, gs: seq<string>)
    requires fs != [] && gs != [] && ColonFree(fs) && ColonFree(gs)
    requires Join(fs) == Join(gs)
    ensures fs == gs
    decreases |fs|
  {
    if |fs| == 1 || |gs| == 1 {
      assert fs == [fs[0]] + fs[1..] && gs == [gs[0]] + gs[1..];
      ColonIn(fs);
      ColonIn(gs);
    } else {
      FirstColon(fs[0], Join(fs[1..]), gs[0], Join(gs[1..]));
      JoinInjective(fs[1..], gs[1..]);
      assert fs == [fs[0]] + fs[1..] && gs == [gs[0]] + gs[1..];
    }
  }

  lemma {:induction false} DecimalInverse(n: nat)
    ensures ParseDigits(Decimal(n)) == n
    decreases n
  {
    if n >= 10 {
      DecimalInverse(n / 10);
      var s := Decimal(n);
      assert s[..|s| - 1] == Decimal(n / 10);
    } else {
      assert [Digit(n)][..0] == [];
      assert ParseDigits([Digit(n)]) == 10 * ParseDigits([]) + n;
    }
  }

  /** A number is read back off its sign and its digits. */
  lemma NumberText(t: int)
    ensures Number(t) != [] && ':' !in Number(t) && (Number(t)[0] == '-' <==> t < 0)
    ensures t >= 0 ==> ParseDigits(Number(t)) == t
    ensures t < 0 ==> ParseDigits(Number(t)[1..]) == -t
  {
    hide Decimal, ParseDigits;
    var n := if t < 0 then -t else t;
    DecimalInverse(n);
    var d := Decimal(n);
    assert '0' <= d[0];
    assert ("-" + d)[1..] == d;
  }

  lemma NumberInjective(t: int, u: int)
    ensures Number(t) == Number(u) <==> t == u
    ensures ':' !in Number(t)
  {
    hide Number, ParseDigits;
    NumberText(t);
    NumberText(u);
  }

  // ---------- Keys tell what they are for ----------

  lemma FieldsAreColonFree(cc: CharClass, k: Key)
    requires Sane(cc)
    ensures ColonFree(Fields(cc, k))
  {
    hide Encoded, Number, Safe;
    EncodedHasNoColon(cc, k.pool);
    match k {
      case MinerWorkers(_, m) => EncodedHasNoColon(cc, m);
      case ActiveMinerWorkers(_, m) => EncodedHasNoColon(cc, m);
      case MinerSummary(_, m) => EncodedHasNoColon(cc, m);
      case WorkerSummary(_, m, w) => EncodedHasNoColon(cc, m); EncodedHasNoColon(cc, w);
      case PoolBucket(_, t) => NumberInjective(t, t);
      case BucketMiners(_, t) => NumberInjective(t, t);
      case BucketWorkers(_, t) => NumberInjective(t, t);
      case SeenEvents(_, t) => NumberInjective(t, t);
      case MinerBucket(_, m, t) => EncodedHasNoColon(cc, m); NumberInjective(t, t);
      case WorkerBucket(_, m, w, t) => EncodedHasNoColon(cc, m); EncodedHasNoColon(cc, w); NumberInjective(t, t);
      case _ =>
    }
  }

  lemma EncodedHasNoColon(cc: CharClass, s: string)
    requires Sane(cc)
    ensures ':' !in Encoded(cc, s)
  {
    EncodedIsSafe(cc, s);
  }

  /** What a key is for: its kind in words, its names, its number. */
  datatype Told = Told(kind: seq<string>, names: seq<string>, number: string)

  /** The same, read off the fields. */
  function Read(f: seq<string>): Told
    requires |f| >= 4
  {
    var n := |f|;
    if f[3] == "seen" && n == 5 then Told(["seen"], [], f[4])
    else if f[3] == "bucket" && n == 6 then Told(["bucket", f[5]], [], f[4])
    else if f[3] == "miner" && n == 6 then Told(["miner", f[5]], [f[4]], "")
    else if f[3] == "miner" && n == 7 && f[5] == "bucket" then Told(["miner", "bucket"], [f[4]], f[6])
    else if f[3] == "miner" && n == 7 then Told(["miner", "active"], [f[4]], "")
    else if f[3] == "worker" && n == 7 then Told(["worker", "summary"], [f[4], f[5]], "")
    else if f[3] == "worker" && n == 8 then Told(["worker", "bucket"], [f[4], f[5]], f[7])
    else Told([f[3]], [], "")
  }

  function Tells(cc: CharClass, k: Key): Told {
    match k
    case Status(_) => Told(["status"], [], "")
    case Summary(_) => Told(["summary"], [], "")
    case TopMiners(_) => Told(["miners"], [], "")
    case WorkersLastSeen(_) => Told(["workers"], [], "")
    case MinerWorkers(_, m) => Told(["miner", "workers"], [Encoded(cc, m)], "")
    case ActiveMinerWorkers(_, m) => Told(["miner", "active"], [Encoded(cc, m)], "")
    case MinerSummary(_, m) => Told(["miner", "summary"], [Encoded(cc, m)], "")
    case WorkerSummary(_, m, w) => Told(["worker", "summary"], [Encoded(cc, m), Encoded(cc, w)], "")
    case PoolBucket(_, t) => Told(["bucket", "summary"], [], Number(t))
    case BucketMiners(_, t) => Told(["bucket", "miners"], [], Number(t))
    case BucketWorkers(_, t) => Told(["bucket", "workers"], [], Number(t))
    case SeenEvents(_, t) => Told(["seen"], [], Number(t))
    case MinerBucket(_, m, t) => Told(["miner", "bucket"], [Encoded(cc, m)], Number(t))
    case WorkerBucket(_, m, w, t) => Told(["worker", "bucket"], [Encoded(cc, m), Encoded(cc, w)], Number(t))
  }

  lemma ReadTells(cc: CharClass, k: Key)
    ensures Read(Fields(cc, k)) == Tells(cc, k) && Fields(cc, k)[2] == Encoded(cc, k.pool)
  {
    hide Encoded, Number;
    assert Fields(cc, k)[3..] == Rest(cc, k);
  }

  lemma SameTold(cc: CharClass, a: Key, b: Key)
    requires Tells(cc, a) == Tells(cc, b) && Encoded(cc, a.pool) == Encoded(cc, b.pool)
    ensures Canonical(cc, a) == Canonical(cc, b)
  {
    hide Encoded, Number;
    var t := Tells(cc, a);
    assert |t.kind| == 1 || |t.kind| == 2;
    match a {
      case PoolBucket(_, u) => if b.PoolBucket? { NumberInjective(u, b.timestamp); }
      case BucketMiners(_, u) => if b.BucketMiners? { NumberInjective(u, b.timestamp); }
      case BucketWorkers(_, u) => if b.BucketWorkers? { NumberInjective(u, b.timestamp); }
      case SeenEvents(_, u) => if b.SeenEvents? { NumberInjective(u, b.timestamp); }
      case MinerBucket(_, m, u) => if b.MinerBucket? { NumberInjective(u, b.timestamp); }
      case WorkerBucket(_, m, w, u) => if b.WorkerBucket? { NumberInjective(u, b.timestamp); }
      case _ =>
    }
    assert forall i | 0 <= i < |t.names| :: Tells(cc, a).names[i] == Tells(cc, b).names[i];
    assert forall i | 0 <= i < |t.kind| :: Tells(cc, a).kind[i] == Tells(cc, b).kind[i];
  }

  lemma CanonicalFields(cc: CharClass, k: Key)
    requires Sane(cc)
    ensures Fields(cc, Canonical(cc, k)) == Fields(cc, k)
  {
    hide Encoded, Number, Safe;
    EncodedIsSafe(cc, k.pool);
    match k {
      case MinerWorkers(_, m) => EncodedIsSafe(cc, m);
      case ActiveMinerWorkers(_, m) => EncodedIsSafe(cc, m);
      case MinerSummary(_, m) => EncodedIsSafe(cc, m);
      case WorkerSummary(_, m, w) => EncodedIsSafe(cc, m); EncodedIsSafe(cc, w);
      case MinerBucket(_, m, t) => EncodedIsSafe(cc, m);
      case WorkerBucket(_, m, w, t) => EncodedIsSafe(cc, m); EncodedIsSafe(cc, w);
      case _ =>
    }
  }

  /** Two keys are the same text exactly when they are of one kind and have the same
      encoded names and the same timestamp. */
  lemma KeysAreUnambiguous(cc: CharClass, a: Key, b: Key)
    requires Sane(cc)
    ensures KeyName(cc, a) == KeyName(cc, b) <==> Canonical(cc, a) == Canonical(cc, b)
  {
    hide Fields, Canonical, Tells, Read, Join, Encoded;
    FieldsAreColonFree(cc, a);
    FieldsAreColonFree(cc, b);
    if KeyName(cc, a) == KeyName(cc, b) {
      JoinInjective(Fields(cc, a), Fields(cc, b));
      ReadTells(cc, a);
      ReadTells(cc, b);
      SameTold(cc, a, b);
    }
    CanonicalFields(cc, a);
    CanonicalFields(cc, b);
  }

  /** The pattern a pool is cleared by matches exactly the keys of that encoded pool. */
  lemma ClearPrefixIsOwn(cc: CharClass, k: Key, pool: string)
    requires Sane(cc)
    ensures PoolPrefix(cc, pool) <= KeyName(cc, k) <==> Encoded(cc, k.pool) == Encoded(cc, pool)
  {
    hide Encoded, Rest, Safe;
    var p, q := Encoded(cc, pool), Encoded(cc, k.pool);
    EncodedHasNoColon(cc, pool);
    EncodedHasNoColon(cc, k.pool);
    var tail := Join(Rest(cc, k));
    KeyNameShape(cc, k);
    var key, prefix := KeyName(cc, k), PoolPrefix(cc, pool);
    if prefix <= key {
      var y := key[|prefix|..];
      assert key == prefix + y;
      assert p + ":" + y == key[15..] == q + ":" + tail;
      FirstColon(p, y, q, tail);
    }
  }

  lemma KeyNameShape(cc: CharClass, k: Key)
    ensures KeyName(cc, k) == "hashstorm:live:" + (Encoded(cc, k.pool) + ":" + Join(Rest(cc, k)))
  {
    hide Encoded, Rest;
    var f, e, rest := Fields(cc, k), Encoded(cc, k.pool), Rest(cc, k);
    assert f[1..] == ["live", e] + rest;
    assert f[1..][1..] == [e] + rest;
    assert f[1..][1..][1..] == rest;
    assert Join(f[1..][1..]) == e + ":" + Join(rest);
    assert Join(f[1..]) == "live" + ":" + Join(f[1..][1..]);
    assert Join(f) == "hashstorm" + ":" + Join(f[1..]);
    assert "hashstorm" + ":" + ("live" + ":" + (e + ":" + Join(rest))) == "hashstorm:live:" + (e + ":" + Join(rest));
  }

  /** A key made of its fields is that text. */
  lemma KeyIsText(cc: CharClass, k: Key)
    ensures KeyName(cc, k) == Text(cc, k)
  {
    hide Encoded, Number, Join;
    KeyNameShape(cc, k);
    var e := Encoded(cc, k.pool);
    var p := "hashstorm:live:" + e + ":";
    RestIsText(cc, k, p);
    assert "hashstorm:live:" + (e + ":" + Join(Rest(cc, k))) == p + Join(Rest(cc, k));
  }

  lemma Regroup(p: string, a: string, x: string, b: string, c: string)
    ensures p + (a + ":" + x) == p + (a + ":") + x
    ensures p + (a + ":" + x + ":" + b) == p + (a + ":") + x + (":" + b)
    ensures p + (a + ":" + x + ":" + b + ":" + c) == p + (a + ":") + x + (":" + b + ":" + c)
    ensures p + (a + ":" + x + ":" + b + ":" + c) == p + (a + ":") + x + (":" + b + ":") + c
  {
  }

  lemma RegroupPair(p: string, a: string, x: string, y: string, b: string, c: string)
    ensures p + (a + ":" + x + ":" + y + ":" + b) == p + (a + ":") + x + ":" + y + (":" + b)
    ensures p + (a + ":" + x + ":" + y + ":" + b + ":" + c) == p + (a + ":") + x + ":" + y + (":" + b + ":") + c
  {
  }

  lemma RestIsText(cc: CharClass, k: Key, p: string)
    requires p == "hashstorm:live:" + Encoded(cc, k.pool) + ":"
    ensures p + Join(Rest(cc, k)) == Text(cc, k)
  {
    hide Encoded, Number, Join;
    if k.WorkerSummary? || k.WorkerBucket? {
      WorkerText(cc, k, p);
    } else if k.MinerWorkers? || k.ActiveMinerWorkers? || k.MinerSummary? || k.MinerBucket? {
      MinerText(cc, k, p);
    } else if k.PoolBucket? || k.BucketMiners? || k.BucketWorkers? || k.SeenEvents? {
      BucketText(cc, k, p);
    } else {
      PoolText(cc, k, p);
    }
  }

  lemma PoolText(cc: CharClass, k: Key, p: string)
    requires p == "hashstorm:live:" + Encoded(cc, k.pool) + ":"
    requires k.Status? || k.Summary? || k.TopMiners? || k.WorkersLastSeen?
    ensures p + Join(Rest(cc, k)) == Text(cc, k)
  {
    hide Encoded, Number, Join;
    match k
    case Status(_) => JoinOne("status");
    case Summary(_) => JoinOne("summary");
    case TopMiners(_) => JoinTwo("miners", "top"); assert "miners" + ":" + "top" == "miners:top";
    case WorkersLastSeen(_) => JoinTwo("workers", "lastseen"); assert "workers" + ":" + "lastseen" == "workers:lastseen";
  }

  lemma BucketText(cc: CharClass, k: Key, p: string)
    requires p == "hashstorm:live:" + Encoded(cc, k.pool) + ":"
    requires k.PoolBucket? || k.BucketMiners? || k.BucketWorkers? || k.SeenEvents?
    ensures p + Join(Rest(cc, k)) == Text(cc, k)
  {
    hide Encoded, Number, Join;
    var n := Number(k.timestamp);
    if k.SeenEvents? {
      JoinTwo("seen", n);
      Regroup(p, "seen", n, "", "");
      assert "seen" + ":" == "seen:";
    } else {
      var last := if k.PoolBucket? then "summary" else if k.BucketMiners? then "miners" else "workers";
      JoinThree("bucket", n, last);
      Regroup(p, "bucket", n, last, "");
      assert "bucket" + ":" == "bucket:";
      assert ":" + "summary" == ":summary" && ":" + "miners" == ":miners" && ":" + "workers" == ":workers";
    }
  }

  lemma MinerText(cc: CharClass, k: Key, p: string)
    requires p == "hashstorm:live:" + Encoded(cc, k.pool) + ":"
    requires k.MinerWorkers? || k.ActiveMinerWorkers? || k.MinerSummary? || k.MinerBucket?
    ensures p + Join(Rest(cc, k)) == Text(cc, k)
  {
    hide Encoded, Number, Join;
    var m := Encoded(cc, k.miner);
    assert "miner" + ":" == "miner:";
    match k
    case MinerWorkers(_, _) =>
      JoinThree("miner", m, "workers");
      Regroup(p, "miner", m, "workers", "");
      assert ":" + "workers" == ":workers";
    case ActiveMinerWorkers(_, _) =>
      JoinFour("miner", m, "workers", "active");
      Regroup(p, "miner", m, "workers", "active");
      assert ":" + "workers" + ":" + "active" == ":workers:active";
    case MinerSummary(_, _) =>
      JoinThree("miner", m, "summary");
      Regroup(p, "miner", m, "summary", "");
      assert ":" + "summary" == ":summary";
    case MinerBucket(_, _, t) =>
      JoinFour("miner", m, "bucket", Number(t));
      Regroup(p, "miner", m, "bucket", Number(t));
      assert ":" + "bucket" + ":" == ":bucket:";
  }

  lemma WorkerText(cc: CharClass, k: Key, p: string)
    requires p == "hashstorm:live:" + Encoded(cc, k.pool) + ":"
    requires k.WorkerSummary? || k.WorkerBucket?
    ensures p + Join(Rest(cc, k)) == Text(cc, k)
  {
    hide Encoded, Number, Join;
    var m, w := Encoded(cc, k.miner), Encoded(cc, k.worker);
    assert "worker" + ":" == "worker:";
    match k
    case WorkerSummary(_, _, _) =>
      JoinFour("worker", m, w, "summary");
      RegroupPair(p, "worker", m, w, "summary", "");
      assert ":" + "summary" == ":summary";
    case WorkerBucket(_, _, _, t) =>
      JoinFive("worker", m, w, "bucket", Number(t));
      RegroupPair(p, "worker", m, w, "bucket", Number(t));
      assert ":" + "bucket" + ":" == ":bucket:";
  }

  lemma JoinOne(a: string)
    ensures Join([a]) == a
  {
  }

  lemma LastColon(a: string, x: string, b: string, y: string)
    requires ':' !in x && ':' !in y && a + ":" + x == b + ":" + y
    ensures x == y
  {
    var s := a + ":" + x;
    assert s[|a|] == ':' && s[|b|] == ':';
    assert forall i | 0 <= i < |x| :: s[|a| + 1 + i] == x[i];
    assert forall i | 0 <= i < |y| :: s[|b| + 1 + i] == y[i];
    assert x == s[|a| + 1..] && y == s[|b| + 1..];
  }

  lemma {:induction false} JoinEnds(fs: seq<string>) returns (front: string)
    requires |fs| > 1
    ensures Join(fs) == front + ":" + fs[|fs| - 1]
    decreases |fs|
  {
    if |fs| == 2 {
      front := fs[0];
    } else {
      var f := JoinEnds(fs[1..]);
      front := fs[0] + ":" + f;
    }
  }

  /** Before rebuilding a pool the keys matching `miner:*:workers:active` behind its
      prefix are deleted, where `*` matches any text, colons included. Only sets of
      active workers of that pool can match; no counter or summary is touched. */
  lemma ActivePatternIsOwn(cc: CharClass, k: Key, pool: string, star: string)
    requires Sane(cc)
    requires KeyName(cc, k) == PoolPrefix(cc, pool) + ("miner:" + star + ":workers" + ":" + "active")
    ensures k.ActiveMinerWorkers? && Encoded(cc, k.pool) == Encoded(cc, pool)
  {
    hide Encoded, Join, Safe;
    ClearPrefixIsOwn(cc, k, pool);
    FieldsAreColonFree(cc, k);
    var f := Fields(cc, k);
    var front := JoinEnds(f);
    var before := PoolPrefix(cc, pool) + ("miner:" + star + ":workers");
    assert KeyName(cc, k) == before + ":" + "active";
    LastColon(front, f[|f| - 1], before, "active");
    LastField(cc, k);
  }

  lemma LastField(cc: CharClass, k: Key)
    requires Fields(cc, k)[|Fields(cc, k)| - 1] == "active"
    ensures k.ActiveMinerWorkers?
  {
    hide Encoded, Decimal;
    assert "active"[0] == 'a';
  }
}
