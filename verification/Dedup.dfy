/** Sequences with repeats removed: the meaning of at-least-once delivery. */
module Dedup {

  /** First occurrences, in order. */
  function Distinct<T(==)>(s: seq<T>): (r: seq<T>)
    ensures forall x | x in s :: x in r
    ensures forall x | x in r :: x in s
    ensures |r| <= |s|
    decreases |s|
  {
    if s == [] then []
    else
      var init, last := s[..|s| - 1], s[|s| - 1];
      assert s == init + [last];
      if last in init then Distinct(init) else Distinct(init) + [last]
  }

  lemma DistinctSnoc<T>(s: seq<T>, x: T)
    ensures Distinct(s + [x]) == if x in s then Distinct(s) else Distinct(s) + [x]
  {
    assert (s + [x])[..|s|] == s;
  }

  lemma {:induction false} DistinctPrefix<T>(s: seq<T>, n: nat)
    requires n <= |s|
    ensures Distinct(s[..n]) <= Distinct(s)
    decreases |s|
  {
    if n < |s| {
      assert s[..|s| - 1][..n] == s[..n];
      DistinctPrefix(s[..|s| - 1], n);
    } else {
      assert s[..n] == s;
    }
  }

  /** Each element occurs once. */
  lemma {:induction false} DistinctUnique<T>(s: seq<T>, i: nat, j: nat)
    requires i < j < |Distinct(s)|
    ensures Distinct(s)[i] != Distinct(s)[j]
    decreases |s|
  {
    var init := s[..|s| - 1];
    if j < |Distinct(init)| {
      DistinctUnique(init, i, j);
    } else {
      assert Distinct(init)[i] in init;
    }
  }

  lemma {:induction false} DistinctAppend<T>(s: seq<T>, t: seq<T>, more: seq<T>)
    requires Distinct(s) == Distinct(t)
    ensures Distinct(s + more) == Distinct(t + more)
    decreases |more|
  {
    if more == [] {
      assert s + more == s && t + more == t;
    } else {
      var m, x := more[..|more| - 1], more[|more| - 1];
      DistinctAppend(s, t, m);
      assert s + more == (s + m) + [x] && t + more == (t + m) + [x];
      assert x in s + m <==> x in Distinct(s + m);
      assert x in t + m <==> x in Distinct(t + m);
      DistinctSnoc(s + m, x);
      DistinctSnoc(t + m, x);
    }
  }

  /** Repeating elements that were there already changes nothing. */
  lemma {:induction false} DistinctRepeat<T>(s: seq<T>, again: seq<T>)
    requires forall x | x in again :: x in s
    ensures Distinct(s + again) == Distinct(s)
    decreases |again|
  {
    if again == [] {
      assert s + again == s;
    } else {
      var m, x := again[..|again| - 1], again[|again| - 1];
      DistinctRepeat(s, m);
      assert x in again;
      assert s + again == (s + m) + [x];
      DistinctSnoc(s + m, x);
    }
  }

  /** Delivering log[a..b] after log[..high] was delivered, in any number of
      overlapping pieces, is delivering log[..max(high, b)]. */
  lemma DistinctReplay<T>(delivered: seq<T>, log: seq<T>, high: nat, a: nat, b: nat)
    requires a <= high <= |log| && a <= b <= |log|
    requires Distinct(delivered) == Distinct(log[..high])
    ensures Distinct(delivered + log[a..b]) == Distinct(log[..if b > high then b else high])
  {
    hide Distinct;
    DistinctAppend(delivered, log[..high], log[a..b]);
    if b <= high {
      assert forall x | x in log[a..b] :: x in log[..high];
      DistinctRepeat(log[..high], log[a..b]);
    } else {
      assert log[a..b] == log[a..high] + log[high..b];
      assert log[..high] + log[a..b] == (log[..high] + log[a..high]) + log[high..b];
      DistinctRepeat(log[..high], log[a..high]);
      DistinctAppend(log[..high] + log[a..high], log[..high], log[high..b]);
      assert log[..high] + log[high..b] == log[..b];
    }
  }

  // ---------- Batches ----------

  /** One batch after the other. */
  function Joined<T>(batches: seq<seq<T>>): seq<T> {
    if batches == [] then [] else Joined(batches[..|batches| - 1]) + batches[|batches| - 1]
  }

  lemma JoinedMore<T>(batches: seq<seq<T>>, batch: seq<T>)
    ensures Joined(batches + [batch]) == Joined(batches) + batch
  {
    assert (batches + [batch])[..|batches|] == batches;
  }

  lemma {:induction false} InJoined<T>(batches: seq<seq<T>>, x: T)
    ensures x in Joined(batches) <==> exists k :: 0 <= k < |batches| && x in batches[k]
    decreases |batches|
  {
    if batches != [] {
      var init := batches[..|batches| - 1];
      InJoined(init, x);
      assert forall k | 0 <= k < |init| :: init[k] == batches[k];
    }
  }
}
