/** InMemoryShareEventQueue: a channel and two counters that are updated after it, one
    interlocked operation at a time, by any number of producers and the reader. */
module Queue {
  import opened Contracts

  /** An event with its estimated size. */
  datatype Queued = Queued(event: ShareEvent, bytes: nat)

  /** The shared state, the operations in flight between two of their atomic actions,
      and, as history, what was written to the channel and what left it. */
  datatype Shared = Shared(
    channel: seq<Queued>,
    count: int,
    approximateBytes: int,
    written: seq<Queued>,      // in the channel, not yet counted
    counted: seq<Queued>,      // counted, its bytes not yet added
    read: seq<Queued>,         // out of the channel, still counted
    uncounted: seq<Queued>,    // no longer counted, its bytes not yet subtracted
    entered: seq<ShareEvent>,
    left: seq<ShareEvent>)

  const EMPTY := Shared([], 0, 0, [], [], [], [], [], [])

  /** The atomic actions: three of an enqueue, three of a dequeue. An index says which
      operation in flight goes on. */
  datatype Action = Write(queued: Queued) | CountUp(i: nat) | BytesUp(i: nat) | Take | CountDown(i: nat) | BytesDown(i: nat)

  function Without<T>(s: seq<T>, i: nat): (r: seq<T>)
    requires i < |s|
    ensures |r| == |s| - 1
  {
    s[..i] + s[i + 1..]
  }

  predicate Possible(q: Shared, a: Action) {
    match a
    case Write(_) => true
    case CountUp(i) => i < |q.written|
    case BytesUp(i) => i < |q.counted|
    case Take => q.channel != []
    case CountDown(i) => i < |q.read|
    case BytesDown(i) => i < |q.uncounted|
  }

  function Perform(q: Shared, a: Action): Shared
    requires Possible(q, a)
  {
    match a
    case Write(x) =>
      q.(channel := q.channel + [x], written := q.written + [x], entered := q.entered + [x.event])
    case CountUp(i) =>
      q.(count := q.count + 1, written := Without(q.written, i), counted := q.counted + [q.written[i]])
    case BytesUp(i) =>
      q.(approximateBytes := q.approximateBytes + q.counted[i].bytes, counted := Without(q.counted, i))
    case Take =>
      q.(channel := q.channel[1..], read := q.read + [q.channel[0]], left := q.left + [q.channel[0].event])
    case CountDown(i) =>
      q.(count := q.count - 1, read := Without(q.read, i), uncounted := q.uncounted + [q.read[i]])
    case BytesDown(i) =>
      q.(approximateBytes := q.approximateBytes - q.uncounted[i].bytes, uncounted := Without(q.uncounted, i))
  }

  function Bytes(s: seq<Queued>): nat {
    if s == [] then 0 else s[0].bytes + Bytes(s[1..])
  }

  function Events(s: seq<Queued>): (es: seq<ShareEvent>)
    ensures |es| == |s|
  {
    if s == [] then [] else [s[0].event] + Events(s[1..])
  }

  lemma {:induction false} BytesConcat(a: seq<Queued>, b: seq<Queued>)
    ensures Bytes(a + b) == Bytes(a) + Bytes(b)
    ensures Events(a + b) == Events(a) + Events(b)
    decreases |a|
  {
    if a == [] {
      assert a + b == b;
    } else {
      assert (a + b)[1..] == a[1..] + b;
      BytesConcat(a[1..], b);
    }
  }

  lemma BytesSnoc(a: seq<Queued>, x: Queued)
    ensures Bytes(a + [x]) == Bytes(a) + x.bytes
    ensures Events(a + [x]) == Events(a) + [x.event]
  {
    BytesConcat(a, [x]);
  }

  lemma {:induction false} BytesWithout(s: seq<Queued>, i: nat)
    requires i < |s|
    ensures Bytes(Without(s, i)) == Bytes(s) - s[i].bytes
    decreases i
  {
    if i == 0 {
      assert Without(s, 0) == s[1..];
    } else {
      assert Without(s, i)[1..] == Without(s[1..], i - 1);
      BytesWithout(s[1..], i - 1);
    }
  }

  /** The counters are the truth, corrected by the operations in flight; and events leave
      in the order in which they entered, none dropped. */
  predicate Accounts(q: Shared) {
    && q.count == |q.channel| - |q.written| + |q.read|
    && q.approximateBytes ==
         Bytes(q.channel) - Bytes(q.written) - Bytes(q.counted) + Bytes(q.read) + Bytes(q.uncounted)
    && q.entered == q.left + Events(q.channel)
  }

  lemma EmptyAccounts()
    ensures Accounts(EMPTY)
  {
    assert Bytes([]) == 0 && Events([]) == [];
    hide Bytes, Events;
  }

  lemma ActionAccounts(q: Shared, a: Action)
    requires Accounts(q) && Possible(q, a)
    ensures Accounts(Perform(q, a))
  {
    hide Bytes, Events, Without;
    match a
    case Write(x) =>
      BytesSnoc(q.channel, x);
      BytesSnoc(q.written, x);
    case CountUp(i) =>
      BytesWithout(q.written, i);
      BytesSnoc(q.counted, q.written[i]);
    case BytesUp(i) =>
      BytesWithout(q.counted, i);
    case Take =>
      BytesSnoc(q.read, q.channel[0]);
      BytesWithout(q.channel, 0);
      TakeFirst(q.channel);
    case CountDown(i) =>
      BytesWithout(q.read, i);
      BytesSnoc(q.uncounted, q.read[i]);
    case BytesDown(i) =>
      BytesWithout(q.uncounted, i);
  }

  lemma TakeFirst(s: seq<Queued>)
    requires s != []
    ensures Without(s, 0) == s[1..]
    ensures Events(s) == [s[0].event] + Events(s[1..])
  {
  }

  ghost predicate IsInterleaving(q: Shared, actions: seq<Action>)
    decreases |actions|
  {
    actions == [] || (Possible(q, actions[0]) && IsInterleaving(Perform(q, actions[0]), actions[1..]))
  }

  ghost function PerformAll(q: Shared, actions: seq<Action>): Shared
    requires IsInterleaving(q, actions)
    decreases |actions|
  {
    if actions == [] then q else PerformAll(Perform(q, actions[0]), actions[1..])
  }

  lemma {:induction false} InterleavingAccounts(q: Shared, actions: seq<Action>)
    requires Accounts(q) && IsInterleaving(q, actions)
    ensures Accounts(PerformAll(q, actions))
    decreases |actions|
  {
    hide Accounts, Perform, Possible;
    if actions != [] {
      ActionAccounts(q, actions[0]);
      InterleavingAccounts(Perform(q, actions[0]), actions[1..]);
    }
  }

  /** The count is off by no more than the operations in flight, below by enqueues not
      yet counted, above by dequeues still counted; once none is in flight both counters
      are exact; and the events that left are the first that entered. */
  predicate TrueUpToFlight(q: Shared) {
    && |q.channel| - |q.written| <= q.count <= |q.channel| + |q.read|
    && (q.written == [] && q.counted == [] && q.read == [] && q.uncounted == [] ==>
          q.count == |q.channel| && q.approximateBytes == Bytes(q.channel))
    && q.left <= q.entered
    && |q.entered| - |q.left| == |q.channel|
  }

  lemma AccountsMeans(q: Shared)
    requires Accounts(q)
    ensures TrueUpToFlight(q)
  {
    assert q.written == [] && q.counted == [] && q.read == [] && q.uncounted == [] ==> Bytes([]) == 0;
  }

  lemma CountersUnderInterleaving(actions: seq<Action>)
    requires IsInterleaving(EMPTY, actions)
    ensures Accounts(PerformAll(EMPTY, actions)) && TrueUpToFlight(PerformAll(EMPTY, actions))
  {
    hide *;
    EmptyAccounts();
    InterleavingAccounts(EMPTY, actions);
    AccountsMeans(PerformAll(EMPTY, actions));
  }

  /** The queue object. Each statement of its methods is one atomic action. */
  class InMemoryShareEventQueue {
    var channel: seq<Queued>
    var count: int
    var approximateBytes: int
    const estimateSize: ShareEvent -> nat
    ghost var shared: Shared

    /** The fields are those of the shared state; other operations may be in flight. */
    ghost predicate Valid()
      reads this
    {
      && Accounts(shared)
      && channel == shared.channel && count == shared.count && approximateBytes == shared.approximateBytes
    }

    constructor (estimateSize: ShareEvent -> nat)
      ensures Valid() && channel == [] && shared == EMPTY && this.estimateSize == estimateSize
    {
      hide Accounts;
      EmptyAccounts();
      this.estimateSize := estimateSize;
      channel, count, approximateBytes, shared := [], 0, 0, EMPTY;
    }

    ghost method Note(a: Action)
      requires Accounts(shared) && Possible(shared, a)
      modifies `shared
      ensures shared == Perform(old(shared), a) && Accounts(shared)
    {
      ActionAccounts(shared, a);
      shared := Perform(shared, a);
    }

    method EnqueueAsync(event: ShareEvent)
      requires Valid()
      modifies this
      ensures Valid()
      ensures channel == old(channel) + [Queued(event, if estimateSize(event) < 128 then 128 else estimateSize(event))]
      ensures count == old(count) + 1
      ensures approximateBytes == old(approximateBytes) + if estimateSize(event) < 128 then 128 else estimateSize(event)
      ensures shared.entered == old(shared.entered) + [event] && shared.left == old(shared.left)
    {
      hide Bytes, Events, Accounts;
      var queued := Queued(event, Max128(estimateSize(event)));
      channel := channel + [queued];
      Note(Write(queued));
      count := count + 1;
      Note(CountUp(|shared.written| - 1));
      approximateBytes := approximateBytes + queued.bytes;
      Note(BytesUp(|shared.counted| - 1));
    }

    method TryDequeue() returns (r: Option<ShareEvent>)
      requires Valid()
      modifies this
      ensures Valid()
      ensures r == if old(channel) == [] then None else Some(old(channel)[0].event)
      ensures r == None ==> shared == old(shared)
      ensures r.Some? ==>
        && channel == old(channel)[1..] && count == old(count) - 1
        && approximateBytes == old(approximateBytes) - old(channel)[0].bytes
        && shared.left == old(shared.left) + [r.value] && shared.entered == old(shared.entered)
    {
      hide Bytes, Events, Accounts;
      if channel == [] {
        return None;
      }
      var queued := channel[0];
      channel := channel[1..];
      Note(Take);
      count := count - 1;
      Note(CountDown(|shared.read| - 1));
      approximateBytes := approximateBytes - queued.bytes;
      Note(BytesDown(|shared.uncounted| - 1));
      r := Some(queued.event);
    }
  }

  function Max128(n: nat): nat {
    if n < 128 then 128 else n
  }
}
