/** A writer's appends one after the other, each of a batch and each cancelled at any moment
    or not at all: what the segments hold in the end, and what a reader finds of it. */
module Attempts {
  import opened Contracts
  import opened Dedup
  import opened Framing
  import opened Log
  import opened Outbox
  import opened Torn

  /** One append: where its batch begins among the events taken from the queue, the batch,
      and how often its token was found live. */
  datatype Try = Try(from: nat, batch: seq<ShareEvent>, looks: nat)

  predicate TakenFrom(log: seq<ShareEvent>, t: Try) {
    t.from + |t.batch| <= |log| && log[t.from..t.from + |t.batch|] == t.batch
  }

  predicate AllTaken(log: seq<ShareEvent>, tries: seq<Try>) {
    forall i | 0 <= i < |tries| :: TakenFrom(log, tries[i])
  }

  /** The segments after the appends. */
  function AfterAll(c: Codec, max: int, chunks: seq<Chunk>, tries: seq<Try>): (r: seq<Chunk>)
    requires |chunks| > 0
    ensures |r| > 0
    decreases |tries|
  {
    if tries == [] then chunks
    else
      var t := tries[|tries| - 1];
      Appending(c, max, AfterAll(c, max, chunks, tries[..|tries| - 1]), t.batch, t.looks)
  }

  /** How many records of the batch were written. */
  function Written(c: Codec, t: Try): (w: nat)
    ensures w <= |t.batch|
  {
    RecordsWritten(t.looks, LeadingValid(c, t.batch))
  }

  /** And how many of them, the first ones, stand where no reader gets. */
  function Unread(c: Codec, max: int, before: seq<Chunk>, t: Try): (h: nat)
    requires |before| > 0
    ensures h <= Written(c, t)
  {
    Hidden(c, max, before, t.batch[..Written(c, t)])
  }

  /** What a reader finds of all that was appended. */
  function Readable(c: Codec, max: int, chunks: seq<Chunk>, tries: seq<Try>): seq<ShareEvent>
    requires |chunks| > 0
    decreases |tries|
  {
    if tries == [] then []
    else
      var init, t := tries[..|tries| - 1], tries[|tries| - 1];
      Readable(c, max, chunks, init) + t.batch[..Written(c, t)][Unread(c, max, AfterAll(c, max, chunks, init), t)..]
  }

  lemma {:induction false} AfterReads(c: Codec, max: int, chunks: seq<Chunk>, tries: seq<Try>)
    requires |chunks| > 0
    ensures
      var r := AfterAll(c, max, chunks, tries);
      && Flat(r) == Flat(chunks) + Readable(c, max, chunks, tries)
      && AllRecords(c, chunks) <= AllRecords(c, r)
      && AllGrown(c, chunks, r)
    decreases |tries|
  {
    hide Flat, AllRecords, Appending, Hidden, LeadingValid, AllGrown, RecordsWritten;
    if tries == [] {
      assert Flat(chunks) + [] == Flat(chunks);
      NotGrown(c, chunks);
    } else {
      var init, t := tries[..|tries| - 1], tries[|tries| - 1];
      AfterReads(c, max, chunks, init);
      AppendingRecords(c, max, AfterAll(c, max, chunks, init), t.batch, t.looks);
      AppendingGrows(c, max, AfterAll(c, max, chunks, init), t.batch, t.looks);
      GrownAgain(c, chunks, AfterAll(c, max, chunks, init), AfterAll(c, max, chunks, tries));
    }
  }

  // ---------- Which events are read ----------

  /** Some append wrote this event where a reader gets. */
  predicate Shown(c: Codec, max: int, chunks: seq<Chunk>, tries: seq<Try>, p: nat)
    requires |chunks| > 0
  {
    exists i :: 0 <= i < |tries| &&
      tries[i].from + Unread(c, max, AfterAll(c, max, chunks, tries[..i]), tries[i]) <= p < tries[i].from + Written(c, tries[i])
  }

  lemma ShownMore(c: Codec, max: int, chunks: seq<Chunk>, tries: seq<Try>, t: Try, p: nat)
    requires |chunks| > 0
    ensures Shown(c, max, chunks, tries + [t], p) <==>
      Shown(c, max, chunks, tries, p)
      || t.from + Unread(c, max, AfterAll(c, max, chunks, tries), t) <= p < t.from + Written(c, t)
  {
    hide AfterAll, Unread, Written;
    var more := tries + [t];
    assert more[..|tries|] == tries && more[|tries|] == t;
    forall i | 0 <= i < |tries| ensures more[..i] == tries[..i] && more[i] == tries[i] {}
  }

  /** A reader finds an event exactly if some append wrote it where a reader gets. */
  lemma {:induction false} ReadExactly(c: Codec, max: int, chunks: seq<Chunk>, log: seq<ShareEvent>, tries: seq<Try>, e: ShareEvent)
    requires |chunks| > 0 && AllTaken(log, tries)
    ensures e in Readable(c, max, chunks, tries) <==>
      exists p :: 0 <= p < |log| && log[p] == e && Shown(c, max, chunks, tries, p)
    decreases |tries|
  {
    hide Shown, Unread, Written, AfterAll;
    if tries == [] {
      NothingShown(c, max, chunks, tries);
    } else {
      var init, t := tries[..|tries| - 1], tries[|tries| - 1];
      var h, w := Unread(c, max, AfterAll(c, max, chunks, init), t), Written(c, t);
      assert AllTaken(log, init) && TakenFrom(log, t) && tries == init + [t];
      ReadExactly(c, max, chunks, log, init, e);
      PartOf(log, t, h, w, e);
      forall p: nat ensures Shown(c, max, chunks, tries, p) <==>
        Shown(c, max, chunks, init, p) || t.from + h <= p < t.from + w
      {
        ShownMore(c, max, chunks, init, t, p);
      }
    }
  }

  lemma NothingShown(c: Codec, max: int, chunks: seq<Chunk>, tries: seq<Try>)
    requires |chunks| > 0 && tries == []
    ensures forall p: nat :: !Shown(c, max, chunks, tries, p)
  {
  }

  lemma SliceAt<T>(s: seq<T>, lo: nat, hi: nat, k: nat)
    requires lo <= hi <= |s| && k < hi - lo
    ensures s[lo..hi][k] == s[lo + k] && s[lo + k] in s[lo..hi]
  {
    assert s[lo..hi][k] in s[lo..hi];
  }

  lemma PartOf(log: seq<ShareEvent>, t: Try, h: nat, w: nat, e: ShareEvent)
    requires TakenFrom(log, t) && h <= w <= |t.batch|
    ensures t.from + w <= |log| && t.batch[..w][h..] == log[t.from + h..t.from + w]
    ensures e in t.batch[..w][h..] <==> exists p :: t.from + h <= p < t.from + w && log[p] == e
  {
    var part := log[t.from + h..t.from + w];
    SliceOfSlice(log, t.from, t.from + |t.batch|, h, w);
    assert t.batch[..w][h..] == t.batch[h..w] == part;
    forall p | t.from + h <= p < t.from + w ensures log[p] in part {
      SliceAt(log, t.from + h, t.from + w, p - t.from - h);
    }
    if e in part {
      var k :| 0 <= k < |part| && part[k] == e;
      SliceAt(log, t.from + h, t.from + w, k);
    }
  }

  /** Of events that differ from one another each is read exactly if it is shown: those taken
      and not shown are lost. */
  lemma LostEvents(c: Codec, max: int, chunks: seq<Chunk>, log: seq<ShareEvent>, tries: seq<Try>, p: nat)
    requires |chunks| > 0 && AllTaken(log, tries) && NoRepeats(log) && p < |log|
    ensures log[p] in Readable(c, max, chunks, tries) <==> Shown(c, max, chunks, tries, p)
  {
    hide Shown, Readable;
    ReadExactly(c, max, chunks, log, tries, log[p]);
  }

  // ---------- In which order ----------

  /** How far the events shown reach. */
  function Reach(c: Codec, max: int, chunks: seq<Chunk>, tries: seq<Try>): (r: nat)
    requires |chunks| > 0
    decreases |tries|
  {
    if tries == [] then 0
    else
      var init, t := tries[..|tries| - 1], tries[|tries| - 1];
      var r := Reach(c, max, chunks, init);
      if Unread(c, max, AfterAll(c, max, chunks, init), t) < Written(c, t) && r < t.from + Written(c, t) then t.from + Written(c, t) else r
  }

  /** What an append shows joins what was shown before. */
  predicate Gapless(c: Codec, max: int, chunks: seq<Chunk>, tries: seq<Try>)
    requires |chunks| > 0
    decreases |tries|
  {
    tries == [] ||
    var init, t := tries[..|tries| - 1], tries[|tries| - 1];
    var h := Unread(c, max, AfterAll(c, max, chunks, init), t);
    Gapless(c, max, chunks, init) && (h < Written(c, t) ==> t.from + h <= Reach(c, max, chunks, init))
  }

  /** Then what a reader finds is, repeats apart, a beginning of what was taken, in order. */
  lemma {:induction false} ReadInOrder(c: Codec, max: int, chunks: seq<Chunk>, log: seq<ShareEvent>, tries: seq<Try>)
    requires |chunks| > 0 && AllTaken(log, tries) && Gapless(c, max, chunks, tries)
    ensures Reach(c, max, chunks, tries) <= |log|
    ensures Distinct(Readable(c, max, chunks, tries)) == Distinct(log[..Reach(c, max, chunks, tries)])
    decreases |tries|
  {
    hide Distinct, Unread, Written, AfterAll, TakenFrom;
    if tries != [] {
      var init, t := tries[..|tries| - 1], tries[|tries| - 1];
      var h, w := Unread(c, max, AfterAll(c, max, chunks, init), t), Written(c, t);
      assert AllTaken(log, init) && TakenFrom(log, t);
      ReadInOrder(c, max, chunks, log, init);
      var read, r := Readable(c, max, chunks, init), Reach(c, max, chunks, init);
      PartOf(log, t, h, w, Sample(""));
      if h < w {
        DistinctReplay(read, log, r, t.from + h, t.from + w);
      } else {
        assert read + t.batch[..w][h..] == read;
      }
    } else {
      assert log[..0] == [];
    }
  }

  // ---------- Which appends hide anything ----------

  /** An append hides records only behind a torn one, and then those that fit. */
  lemma HidesWhatFits(c: Codec, max: int, before: seq<Chunk>, t: Try, i: nat)
    requires |before| > 0 && 0 < i <= Written(c, t)
    ensures i <= Unread(c, max, before, t) <==> Dark(before) && Fits(c, max, before, t.batch[..i])
  {
    hide PutAll, Hidden, Flat, AllRecords, Fits, LeadingValid, RecordsWritten;
    var es := t.batch[..Written(c, t)];
    assert es[..i] == t.batch[..i];
    PutAllRecords(c, max, before, es);
    if Dark(before) { HiddenIsWhatFits(c, max, before, es, i); }
  }

  predicate IsTorn(c: Codec, t: Try) {
    Tears(t.looks, LeadingValid(c, t.batch))
  }

  /** Without a tear nothing is hidden, and no reader is disturbed. */
  lemma {:induction false} NoTears(c: Codec, max: int, chunks: seq<Chunk>, tries: seq<Try>)
    requires |chunks| > 0 && !Dark(chunks) && forall i | 0 <= i < |tries| :: !IsTorn(c, tries[i])
    ensures !Dark(AfterAll(c, max, chunks, tries))
    ensures forall i | 0 <= i < |tries| :: Unread(c, max, AfterAll(c, max, chunks, tries[..i]), tries[i]) == 0
    decreases |tries|
  {
    hide Dark, Appending, IsTorn, Unread;
    if tries != [] {
      var init, t := tries[..|tries| - 1], tries[|tries| - 1];
      NoTears(c, max, chunks, init);
      NoTear(c, max, AfterAll(c, max, chunks, init), t);
      forall i | 0 <= i < |tries| ensures Unread(c, max, AfterAll(c, max, chunks, tries[..i]), tries[i]) == 0 {
        if i < |init| { assert tries[..i] == init[..i] && tries[i] == init[i]; }
      }
    }
  }

  lemma NoTear(c: Codec, max: int, before: seq<Chunk>, t: Try)
    requires |before| > 0 && !Dark(before) && !IsTorn(c, t)
    ensures !Dark(Appending(c, max, before, t.batch, t.looks)) && Unread(c, max, before, t) == 0
  {
    hide Dark, Appending, Tears, LeadingValid, Flat, RecordsWritten, Hidden, PutAll, AllRecords;
    TearsExactly(c, max, before, t.batch, t.looks);
    PutAllRecords(c, max, before, t.batch[..Written(c, t)]);
  }

  /** Every append that found a torn record left bytes behind it at which a reader stops. */
  ghost predicate Undisturbed(c: Codec, max: int, chunks: seq<Chunk>, tries: seq<Try>)
    requires |chunks| > 0
  {
    forall i | 0 <= i < |tries| :: QuietAfter(c, max, AfterAll(c, max, chunks, tries[..i]), tries[i])
  }

  ghost predicate QuietAfter(c: Codec, max: int, before: seq<Chunk>, t: Try)
    requires |before| > 0
  {
    Dark(before) ==> Quiet(c, before[|before| - 1].dark + Shaded(c, max, before, t.batch, t.looks))
  }

  lemma UndisturbedMore(c: Codec, max: int, chunks: seq<Chunk>, tries: seq<Try>, t: Try)
    requires |chunks| > 0
    ensures Undisturbed(c, max, chunks, tries + [t]) <==>
      Undisturbed(c, max, chunks, tries) && QuietAfter(c, max, AfterAll(c, max, chunks, tries), t)
  {
    hide QuietAfter, AfterAll;
    var more := tries + [t];
    assert more[..|tries|] == tries && more[|tries|] == t;
    forall i | 0 <= i < |tries| ensures more[..i] == tries[..i] && more[i] == tries[i] {}
    if Undisturbed(c, max, chunks, more) {
      assert QuietAfter(c, max, AfterAll(c, max, chunks, more[..|tries|]), more[|tries|]);
      forall i | 0 <= i < |tries| ensures QuietAfter(c, max, AfterAll(c, max, chunks, tries[..i]), tries[i]) {
        assert QuietAfter(c, max, AfterAll(c, max, chunks, more[..i]), more[i]);
      }
    }
  }

  /** A reader is undisturbed in the end exactly if it is so after each append. */
  lemma {:induction false} SoundExactly(c: Codec, max: int, chunks: seq<Chunk>, tries: seq<Try>)
    requires Lawful(c) && |chunks| > 0 && Sound(c, chunks)
    ensures Sound(c, AfterAll(c, max, chunks, tries)) <==> Undisturbed(c, max, chunks, tries)
    decreases |tries|
  {
    hide Sound, Appending, Quiet, Shaded, AllGrown, Undisturbed, Dark, Shades, Lawful;
    if tries == [] {
      assert Undisturbed(c, max, chunks, tries) by { NothingDisturbs(c, max, chunks, tries); }
    } else {
      var init, t := tries[..|tries| - 1], tries[|tries| - 1];
      var before := AfterAll(c, max, chunks, init);
      assert tries == init + [t];
      SoundExactly(c, max, chunks, init);
      UndisturbedMore(c, max, chunks, init, t);
      AppendingGrows(c, max, before, t.batch, t.looks);
      if Sound(c, Appending(c, max, before, t.batch, t.looks)) {
        SoundBefore(c, before, Appending(c, max, before, t.batch, t.looks));
      }
      if Sound(c, before) {
        if Dark(before) {
          AppendingBehindATear(c, max, before, t.batch, t.looks);
        } else {
          AppendingSound(c, max, before, t.batch, t.looks);
        }
      }
    }
  }

  lemma NothingDisturbs(c: Codec, max: int, chunks: seq<Chunk>, tries: seq<Try>)
    requires |chunks| > 0 && tries == []
    ensures Undisturbed(c, max, chunks, tries)
  {
  }

  // ---------- What was taken and what was tried ----------

  /** The append of the whole batch was not cancelled before its last record. */
  predicate Whole(t: Try) {
    t.looks > 4 * |t.batch|
  }

  predicate Has(t: Try, p: nat) {
    t.from <= p < t.from + |t.batch|
  }

  predicate Tried(tries: seq<Try>, p: nat) {
    exists i :: 0 <= i < |tries| && Has(tries[i], p)
  }

  predicate Done(tries: seq<Try>, p: nat) {
    exists i :: 0 <= i < |tries| && Has(tries[i], p) && Whole(tries[i])
  }

  /** Of the first n events each is in hand, or its batch was appended whole, or it was tried
      and given up. */
  predicate Accounts(tries: seq<Try>, dropped: set<nat>, n: nat, hand: set<nat>) {
    forall p: nat | p < n :: p in hand || Done(tries, p) || (p in dropped && Tried(tries, p))
  }

  lemma TriedMore(tries: seq<Try>, t: Try, p: nat)
    ensures Tried(tries + [t], p) <==> Tried(tries, p) || Has(t, p)
    ensures Done(tries + [t], p) <==> Done(tries, p) || (Has(t, p) && Whole(t))
  {
    hide Has, Whole;
    var more := tries + [t];
    assert more[|tries|] == t;
    forall i | 0 <= i < |tries| ensures more[i] == tries[i] {}
    if Tried(tries, p) {
      var i :| 0 <= i < |tries| && Has(tries[i], p);
      assert Has(more[i], p);
    }
    if Done(tries, p) {
      var i :| 0 <= i < |tries| && Has(tries[i], p) && Whole(tries[i]);
      assert Has(more[i], p) && Whole(more[i]);
    }
    if Has(t, p) { assert Has(more[|tries|], p); }
    if Has(t, p) && Whole(t) { assert Has(more[|tries|], p) && Whole(more[|tries|]); }
  }

  /** A further append; when it is whole its batch is no longer in hand. */
  lemma AccountsMore(tries: seq<Try>, dropped: set<nat>, n: nat, hand: set<nat>, t: Try)
    requires Accounts(tries, dropped, n, hand + Range(t.from, t.from + |t.batch|))
    ensures Accounts(tries + [t], dropped, n, hand + Range(t.from, t.from + |t.batch|))
    ensures Whole(t) ==> Accounts(tries + [t], dropped, n, hand)
    ensures forall p | Has(t, p) :: Tried(tries + [t], p)
  {
    hide Tried, Done, Whole;
    forall p: nat ensures Tried(tries, p) ==> Tried(tries + [t], p)
      ensures Done(tries, p) ==> Done(tries + [t], p)
      ensures Has(t, p) ==> Tried(tries + [t], p) && (Whole(t) ==> Done(tries + [t], p))
    {
      TriedMore(tries, t, p);
    }
  }

  /** The batch is given up. */
  lemma AccountsDrop(tries: seq<Try>, dropped: set<nat>, n: nat, hand: set<nat>, span: set<nat>)
    requires Accounts(tries, dropped, n, hand + span) && forall p | p in span :: Tried(tries, p)
    ensures Accounts(tries, dropped + span, n, hand)
  {
    hide Tried, Done;
  }

  /** The appends follow one another: none begins behind what was appended whole so far. */
  function End(tries: seq<Try>): nat
    decreases |tries|
  {
    if tries == [] then 0
    else
      var t, e := tries[|tries| - 1], End(tries[..|tries| - 1]);
      if Whole(t) && e < t.from + |t.batch| then t.from + |t.batch| else e
  }

  predicate Following(tries: seq<Try>)
    decreases |tries|
  {
    tries == [] || (Following(tries[..|tries| - 1]) && tries[|tries| - 1].from <= End(tries[..|tries| - 1]))
  }

  lemma FollowingMore(tries: seq<Try>, t: Try)
    requires Following(tries) && t.from <= End(tries)
    ensures Following(tries + [t])
    ensures End(tries + [t]) == if Whole(t) && End(tries) < t.from + |t.batch| then t.from + |t.batch| else End(tries)
  {
    assert (tries + [t])[..|tries|] == tries;
  }

  lemma {:induction false} EndWithin(log: seq<ShareEvent>, tries: seq<Try>)
    requires AllTaken(log, tries)
    ensures End(tries) <= |log|
    decreases |tries|
  {
    if tries != [] {
      assert TakenFrom(log, tries[|tries| - 1]);
      EndWithin(log, tries[..|tries| - 1]);
    }
  }

  /** When nothing is hidden, appends that follow one another show everything up to the end,
      in order. */
  lemma {:induction false} FollowingIsGapless(c: Codec, max: int, chunks: seq<Chunk>, tries: seq<Try>)
    requires |chunks| > 0 && Following(tries)
    requires forall i | 0 <= i < |tries| :: LeadingValid(c, tries[i].batch) == |tries[i].batch|
    requires forall i | 0 <= i < |tries| :: Unread(c, max, AfterAll(c, max, chunks, tries[..i]), tries[i]) == 0
    ensures Gapless(c, max, chunks, tries) && End(tries) <= Reach(c, max, chunks, tries)
    decreases |tries|
  {
    hide Unread, AfterAll, LeadingValid;
    if tries != [] {
      var init, t := tries[..|tries| - 1], tries[|tries| - 1];
      forall i | 0 <= i < |init|
        ensures LeadingValid(c, init[i].batch) == |init[i].batch| && Unread(c, max, AfterAll(c, max, chunks, init[..i]), init[i]) == 0
      {
        assert init[i] == tries[i] && init[..i] == tries[..i];
      }
      FollowingIsGapless(c, max, chunks, init);
      assert LeadingValid(c, t.batch) == |t.batch|;
      assert Unread(c, max, AfterAll(c, max, chunks, tries[..|tries| - 1]), t) == 0;
    }
  }

  /** No cancellation inside a record: everything that was appended whole is read, in the
      order in which it was taken. */
  lemma NothingLost(c: Codec, max: int, chunks: seq<Chunk>, log: seq<ShareEvent>, tries: seq<Try>)
    requires |chunks| > 0 && !Dark(chunks) && AllTaken(log, tries) && Following(tries) && End(tries) == |log|
    requires forall i | 0 <= i < |tries| :: LeadingValid(c, tries[i].batch) == |tries[i].batch| && !IsTorn(c, tries[i])
    ensures Distinct(Readable(c, max, chunks, tries)) == Distinct(log)
  {
    hide Distinct, Readable, Reach, Gapless, AfterAll, Unread, IsTorn, LeadingValid, Dark;
    NoTears(c, max, chunks, tries);
    FollowingIsGapless(c, max, chunks, tries);
    ReadInOrder(c, max, chunks, log, tries);
    assert log[..|log|] == log;
  }

  /** A drain that overtakes the batch in hand: both events are read, the later one first. */
  lemma OvertakingReorders(c: Codec, max: int, chunks: seq<Chunk>, a: ShareEvent, b: ShareEvent)
    requires |chunks| > 0 && !Dark(chunks) && Accepted(c, a) && Accepted(c, b)
    ensures
      var tries := [Try(1, [b], 6), Try(0, [a], 6)];
      && AllTaken([a, b], tries) && (forall i | 0 <= i < |tries| :: Whole(tries[i]) && !IsTorn(c, tries[i]))
      && Readable(c, max, chunks, tries) == [b, a]
  {
    hide AfterAll, Unread, Dark, Accepted;
    var one, two := Try(1, [b], 6), Try(0, [a], 6);
    var tries := [one, two];
    assert [a][1..] == [] && [b][1..] == [];
    assert LeadingValid(c, [a]) == 1 && LeadingValid(c, [b]) == 1;
    NoTears(c, max, chunks, tries);
    assert tries[..1] == [one] && tries[..0] == [] && tries[..1][..0] == [];
    assert Unread(c, max, AfterAll(c, max, chunks, tries[..0]), tries[0]) == 0;
    assert Unread(c, max, AfterAll(c, max, chunks, tries[..1]), tries[1]) == 0;
    assert Readable(c, max, chunks, [one]) == [] + [b];
  }
}
