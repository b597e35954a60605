/** Several torn segments in one directory: how they come about, what recovery, which repairs
    one a pass, leaves of them, and what that costs the process that starts then. */
module TornRestart {
  import opened Contracts
  import opened Checksums
  import opened Framing
  import opened Reader
  import opened Log
  import opened Wal
  import opened Protocol
  import Torn
  import Publisher

  /** Some segment before the last ends in the dark. */
  predicate DarkBefore(chunks: seq<Chunk>) {
    exists i :: 0 <= i < |chunks| - 1 && chunks[i].dark != []
  }

  lemma DarkBeforeStep(chunks: seq<Chunk>)
    requires |chunks| > 1
    ensures DarkBefore(chunks) <==> chunks[0].dark != [] || DarkBefore(chunks[1..])
  {
    var rest := chunks[1..];
    assert forall i | 0 <= i < |rest| :: rest[i] == chunks[i + 1];
    if DarkBefore(chunks) {
      var i :| 0 <= i < |chunks| - 1 && chunks[i].dark != [];
      if i > 0 { assert rest[i - 1].dark != []; }
    }
    if DarkBefore(rest) {
      var i :| 0 <= i < |rest| - 1 && rest[i].dark != [];
      assert chunks[i + 1].dark != [];
    }
  }

  lemma DarkStep(chunk: Chunk, rest: seq<Chunk>)
    requires |rest| > 0
    ensures Dark([chunk] + rest) <==> Dark(rest)
  {
  }

  /** Recovery leaves the last segment dark exactly when there was another one to repair. */
  lemma {:induction false} MendLeavesDark(chunks: seq<Chunk>)
    requires |chunks| > 0
    ensures Dark(Mend(chunks)) <==> Dark(chunks) && DarkBefore(chunks)
    decreases |chunks|
  {
    if |chunks| > 1 {
      hide DarkBefore, Dark;
      var head, rest := chunks[0], chunks[1..];
      MendLeavesDark(rest);
      DarkBeforeStep(chunks);
      assert chunks == [head] + rest;
      DarkStep(head, rest);
      DarkStep(head, Mend(rest));
      DarkStep(head.(dark := []), rest);
    }
  }

  /** What a crash leaves of the last segment ends in the dark exactly when it does not end at
      a record boundary. */
  lemma CutLeavesDark(c: Codec, chunks: seq<Chunk>, n: nat)
    requires |chunks| > 0 && n <= |Content(c, chunks[|chunks| - 1])|
    ensures
      var es := chunks[|chunks| - 1].events;
      && Dark(CutLast(c, chunks, n)) <==> |Frames(c, es[..Fit(c, es, n)])| < n
    ensures DarkBefore(CutLast(c, chunks, n)) <==> DarkBefore(chunks)
  {
    hide Frames, Fit;
    var k := |chunks| - 1;
    var r := CutLast(c, chunks, n);
    FitBound(c, chunks[k].events, n);
    assert forall i | 0 <= i < k :: r[i] == chunks[i];
  }

  /** Exactly after which crashes a restarted outbox appends where no reader gets: those that
      leave the last segment torn and come on top of a torn segment before it. */
  lemma RestartLeavesDark(c: Codec, max: int, s: Sys)
    requires |s.chunks| > 0 && Enabled(c, max, s, Restart)
    ensures
      var t, es := Next(c, max, s, Restart), Last(s).events;
      && |t.chunks| > 0
      && (Dark(t.chunks) <==> DarkBefore(s.chunks) && |Frames(c, es[..Fit(c, es, s.flushed)])| < s.flushed)
  {
    hide Frames, Fit, Cut, Content, Flat, Mend;
    CutLeavesDark(c, s.chunks, s.flushed);
    MendLeavesDark(CutLast(c, s.chunks, s.flushed));
  }

  /** What is appended then: as many of the records are hidden as fit the torn segment, and
      none if it is not torn. */
  lemma RestartHides(c: Codec, max: int, s: Sys, es: seq<ShareEvent>, i: nat)
    requires |s.chunks| > 0 && Enabled(c, max, s, Restart) && 0 < i <= |es|
    ensures
      var t := Next(c, max, s, Restart);
      && |t.chunks| > 0
      && (i <= Hidden(c, max, t.chunks, es) <==> Dark(t.chunks) && Torn.Fits(c, max, t.chunks, es[..i]))
  {
    hide Content, Flat, Mend, CutLast, Hidden, PutAll, AllRecords, Torn.Fits;
    var t := Next(c, max, s, Restart);
    PutAllRecords(c, max, t.chunks, es);
    if Dark(t.chunks) { Torn.HiddenIsWhatFits(c, max, t.chunks, es, i); }
  }

  // ---------- In the files ----------

  function DarkCount(chunks: seq<Chunk>): nat {
    if chunks == [] then 0 else (if chunks[0].dark == [] then 0 else 1) + DarkCount(chunks[1..])
  }

  /** The incomplete segments of a sound directory are those that end in the dark; with
      RecoveryRepairsOne, a second pass has work to do exactly if there were two. */
  lemma {:induction false} IncompleteAreDark(c: Codec, segments: seq<Segment>, chunks: seq<Chunk>)
    requires Lawful(c) && Sound(c, chunks) && StoresAll(c, segments, chunks)
    ensures Incomplete(c, segments) == DarkCount(chunks)
    ensures Recovery(c, segments).Recovered?
    ensures Recovery(c, Recovery(c, segments).segments) == Recovery(c, segments) <==> DarkCount(chunks) <= 1
    decreases |chunks|
  {
    hide SegmentResult, Content, Quiet, AllStorable, Recovery, IsComplete;
    RecoveryMends(c, segments, chunks);
    if chunks != [] {
      ChunkReads(c, chunks[0]);
      IncompleteAreDark(c, segments[1..], chunks[1..]);
    }
    RecoveryRepairsOne(c, segments);
  }

  // ---------- A run with two tears ----------

  /** Cancelled inside a record, opened a further segment, and cancelled there again. */
  predicate TwoTears(c: Codec, e: ShareEvent, s: Sys) {
    var torn := FrameOf(c, e)[..HEADER + |Payload(c, e)|];
    s == INIT.(chunks := [Chunk(1, [], torn), Chunk(2, [], torn)], flushed := |torn|)
  }

  lemma TornIs(c: Codec, e: ShareEvent, k: nat)
    requires Lawful(c) && Storable(c, e)
    ensures
      var torn := FrameOf(c, e)[..HEADER + |Payload(c, e)|];
      && torn != [] && Quiet(c, torn) && Content(c, Chunk(k, [], torn)) == torn
      && Content(c, Chunk(k, [], [])) == []
  {
    hide FrameOf, Quiet, Payload;
    var torn := FrameOf(c, e)[..HEADER + |Payload(c, e)|];
    TornIsQuiet(c, e, HEADER + |Payload(c, e)|);
    assert [] + torn == torn;
  }

  /** A directory with two torn segments is within reach: an append is cancelled between the
      payload and the checksum of a record, the next one opens a segment and is cancelled
      there in the same way. */
  lemma TearsTwice(c: Codec, max: int, e: ShareEvent) returns (steps: seq<Step>, s: Sys)
    requires Lawful(c) && Storable(c, e)
    ensures IsRun(c, max, INIT, steps) && s == Exec(c, max, INIT, steps)
    ensures TwoTears(c, e, s) && Inv(c, s)
  {
    hide FrameOf, Quiet, Payload, IsRun, Exec, Inv;
    var n := HEADER + |Payload(c, e)|;
    var torn := FrameOf(c, e)[..n];
    TornIs(c, e, 1);
    TornIs(c, e, 2);
    NothingIsQuiet(c);
    var tear := Tear(e, n, n);
    assert INIT.chunks[..0] == [] && [] + torn == torn;
    assert Darken(INIT.chunks, torn) == [Chunk(1, [], torn)];
    assert Enabled(c, max, INIT, tear);
    var one := Next(c, max, INIT, tear);
    assert one == INIT.(chunks := [Chunk(1, [], torn)], flushed := n);
    assert Enabled(c, max, one, Rotate);
    var two := Next(c, max, one, Rotate);
    assert two == INIT.(chunks := [Chunk(1, [], torn), Chunk(2, [], [])], flushed := 0);
    assert two.chunks[..1] == [Chunk(1, [], torn)];
    assert Darken(two.chunks, torn) == [Chunk(1, [], torn), Chunk(2, [], torn)];
    assert Enabled(c, max, two, tear);
    s := Next(c, max, two, tear);
    steps := [tear, Rotate, tear];
    RunOfThree(c, max, INIT, tear, Rotate, tear);
    InitInv(c);
    RunInv(c, max, INIT, steps);
  }

  /** A restart in that state repairs the first segment only. */
  lemma RestartMendsOne(c: Codec, max: int, e: ShareEvent, s: Sys) returns (t: Sys)
    requires Lawful(c) && Storable(c, e) && TwoTears(c, e, s)
    ensures Enabled(c, max, s, Restart) && t == Next(c, max, s, Restart)
    ensures t == s.(chunks := [Chunk(1, [], []), s.chunks[1]]) && Dark(t.chunks)
  {
    hide FrameOf, Quiet, Payload;
    var torn := FrameOf(c, e)[..HEADER + |Payload(c, e)|];
    TornIs(c, e, 2);
    var none: seq<ShareEvent> := [];
    assert none[..0] == none && torn[0..|torn|] == torn;
    assert Cut(c, s.chunks[1], |torn|) == s.chunks[1];
    assert s.chunks[..1] + [s.chunks[1]] == s.chunks;
    assert CutLast(c, s.chunks, |torn|) == s.chunks;
    assert Mend(s.chunks) == [Chunk(1, [], [])] + s.chunks[1..];
    t := Next(c, max, s, Restart);
    assert t.chunks[1..] == [s.chunks[1]] && s.chunks[1..][1..] == [];
    assert Flat(t.chunks) == [] + ([] + Flat(t.chunks[1..][1..]));
    assert INIT.log[..0] == [];
  }

  /** So after the crash that follows, an event appended by the restarted process, without any
      cancellation of its own, is hidden when it fits. */
  lemma RestartLosesAnAppend(c: Codec, max: int, e: ShareEvent)
    returns (tears: seq<Step>, flushed: nat, steps: seq<Step>, t: Sys)
    requires Lawful(c) && Storable(c, e) && Fnv1a(Payload(c, e)) != MAGIC
    requires HEADER + |Payload(c, e)| + |FrameOf(c, e)| <= max
    ensures IsRun(c, max, INIT, steps) && t == Exec(c, max, INIT, steps)
    ensures steps == tears + [Restart, Append([e], flushed)]
    ensures t.log == [] && t.lost == [e]
  {
    hide FrameOf, Quiet, Payload, IsRun, Exec, Inv, Fnv1a, Enabled, Next, PutAll, Hidden;
    var s;
    tears, s := TearsTwice(c, max, e);
    var r := RestartMendsOne(c, max, e, s);
    flushed, t := AppendHidden(c, max, e, s, r);
    RunOfTwo(c, max, s, Restart, Append([e], flushed));
    var more := [Restart, Append([e], flushed)];
    Publisher.RunConcat(c, max, INIT, tears, more);
    steps := tears + more;
  }

  lemma RunOfTwo(c: Codec, max: int, s: Sys, a: Step, b: Step)
    requires |s.chunks| > 0 && Enabled(c, max, s, a)
    requires |Next(c, max, s, a).chunks| > 0 && Enabled(c, max, Next(c, max, s, a), b)
    ensures IsRun(c, max, s, [a, b])
    ensures Exec(c, max, s, [a, b]) == Next(c, max, Next(c, max, s, a), b)
  {
    hide Enabled, Next;
    var one := Next(c, max, s, a);
    var two := Next(c, max, one, b);
    assert [a, b][1..] == [b] && [b][1..] == [];
    assert IsRun(c, max, two, []) && Exec(c, max, two, []) == two;
    assert IsRun(c, max, one, [b]) && Exec(c, max, one, [b]) == two;
  }

  lemma AppendHidden(c: Codec, max: int, e: ShareEvent, s: Sys, r: Sys) returns (flushed: nat, t: Sys)
    requires Lawful(c) && Storable(c, e) && Fnv1a(Payload(c, e)) != MAGIC
    requires HEADER + |Payload(c, e)| + |FrameOf(c, e)| <= max
    requires TwoTears(c, e, s) && r == s.(chunks := [Chunk(1, [], []), s.chunks[1]])
    ensures Enabled(c, max, r, Append([e], flushed)) && t == Next(c, max, r, Append([e], flushed))
    ensures t.log == [] && t.lost == [e]
  {
    hide FrameOf, Quiet, Payload, Fnv1a, Flat, Frames;
    var torn := FrameOf(c, e)[..HEADER + |Payload(c, e)|];
    var es := [e];
    TornIs(c, e, 2);
    NothingIsQuiet(c);
    OneFrame(c, e);
    Torn.NoFrames(c, []);
    Torn.TornQuiet(c, e, 4, es);
    assert es[..0] == [] && es == [] + es;
    assert PutAll(c, max, r.chunks, es[..0]) == r.chunks;
    assert MakeRoom(c, max, r.chunks, e) == r.chunks;
    var p := PutAll(c, max, r.chunks, es);
    assert p == Write(c, r.chunks, e);
    assert p == [Chunk(1, [], []), Chunk(2, [], torn + FrameOf(c, e))];
    assert Dark(p) && Hidden(c, max, r.chunks, es[..0]) == 0 && Hidden(c, max, r.chunks, es) == 1;
    assert Sound(c, p);
    flushed := |Content(c, p[1])|;
    assert flushed == |torn + FrameOf(c, e)|;
    t := Next(c, max, r, Append(es, flushed));
    assert es[1..] == [] && es[..1] == es;
  }
}
