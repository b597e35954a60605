/** The outbox on files: the directory of segments with its checkpoint, and recovery,
    proved against the event view of module Log. */
module Wal {
  import opened Contracts
  import opened Checksums
  import opened Framing
  import opened SegmentNames
  import opened Reader
  import opened Log

  /** A `*.wal` file. The name is SegmentName(index). */
  datatype Segment = Segment(index: nat, bytes: seq<byte>)

  /** The outbox directory: its segments as the ordinal listing returns them, and
      the checkpoint file with the temporary file that replaces it. */
  class WalDirectory {
    var segments: seq<Segment>
    var checkpointFile: Option<Checkpoint>
    var temporaryFile: Option<Checkpoint>

    constructor ()
      ensures segments == [] && checkpointFile == None && temporaryFile == None
    {
      segments, checkpointFile, temporaryFile := [], None, None;
    }

    function Saved(): Checkpoint
      reads this`checkpointFile
    {
      if checkpointFile.Some? then checkpointFile.value else NO_CHECKPOINT
    }

    method LoadCheckpoint() returns (cp: Checkpoint)
      ensures cp == Saved()
    {
      match checkpointFile
      case None => cp := NO_CHECKPOINT;
      case Some(saved) => cp := saved;
    }

    /** The replacement is one rename: after each file operation, so at whatever moment the
        process dies, the saved checkpoint is the old one or the new one. `moments` are the
        checkpoints a restart would find after each of them. */
    method SaveCheckpoint(cp: Checkpoint) returns (ghost moments: seq<Checkpoint>)
      modifies this`checkpointFile, this`temporaryFile
      ensures Saved() == cp && temporaryFile == None
      ensures |moments| == 2 && forall m | m in moments :: m == old(Saved()) || m == cp
    {
      temporaryFile := Some(cp);
      moments := [Saved()];
      checkpointFile, temporaryFile := temporaryFile, None;
      moments := moments + [Saved()];
    }
  }

  // ---------- Bytes and events ----------

  /** The segment files hold the chunks. */
  predicate StoresAll(c: Codec, segments: seq<Segment>, chunks: seq<Chunk>) {
    && |segments| == |chunks|
    && (forall i | 0 <= i < |chunks| :: segments[i] == Segment(chunks[i].index, Content(c, chunks[i])))
  }

  /** They do, except that only the first `n` bytes of the last one are in its file. */
  predicate Stores(c: Codec, segments: seq<Segment>, chunks: seq<Chunk>, n: nat) {
    && |segments| == |chunks| > 0
    && (forall i | 0 <= i < |chunks| - 1 :: segments[i] == Segment(chunks[i].index, Content(c, chunks[i])))
    && var last := chunks[|chunks| - 1];
    && n <= |Content(c, last)|
    && segments[|chunks| - 1] == Segment(last.index, Content(c, last)[..n])
  }

  lemma CutContent(c: Codec, k: Chunk, n: nat)
    requires n <= |Content(c, k)|
    ensures Content(c, Cut(c, k, n)) == Content(c, k)[..n]
  {
    hide Frames, Fit;
    var m := Fit(c, k.events, n);
    FitBound(c, k.events, n);
    var kept := Frames(c, k.events[..m]);
    assert k.events == k.events[..m] + k.events[m..];
    FramesConcat(c, k.events[..m], k.events[m..]);
    assert Content(c, k)[..|kept|] == kept;
    assert Content(c, k)[..n] == Content(c, k)[..|kept|] + Content(c, k)[|kept|..n];
  }

  /** What a crash leaves in the files. */
  lemma CrashLeaves(c: Codec, segments: seq<Segment>, chunks: seq<Chunk>, n: nat)
    requires Stores(c, segments, chunks, n)
    ensures StoresAll(c, segments, CutLast(c, chunks, n))
  {
    hide Cut, Content;
    CutContent(c, chunks[|chunks| - 1], n);
  }

  // ---------- Recovery ----------

  datatype Recovered = Recovered(segments: seq<Segment>) | RecoveryThrew

  /** Cut the first incomplete segment to its valid length; look no further. */
  function Recovery(c: Codec, segments: seq<Segment>): (r: Recovered)
    ensures r.Recovered? ==> |r.segments| == |segments|
  {
    if segments == [] then Recovered([])
    else
      var s := segments[0];
      match SegmentResult(c, SegmentName(s.index), s.bytes, 0)
      case ReadThrew => RecoveryThrew
      case ReadResult(_, validLength, isComplete) =>
        if !isComplete then Recovered([s.(bytes := s.bytes[..validLength])] + segments[1..])
        else
          match Recovery(c, segments[1..])
          case RecoveryThrew => RecoveryThrew
          case Recovered(rest) => Recovered([s] + rest)
  }

  lemma {:induction false} RecoveryStep(c: Codec, segments: seq<Segment>, i: nat)
    requires i < |segments|
    requires forall j | 0 <= j < i :: IsComplete(c, segments[j])
    ensures Recovery(c, segments) ==
      match Recovery(c, segments[i..])
      case RecoveryThrew => RecoveryThrew
      case Recovered(rest) => Recovered(segments[..i] + rest)
    decreases i
  {
    hide SegmentResult;
    if i == 0 {
      assert segments[0..] == segments;
      if Recovery(c, segments).Recovered? {
        assert segments[..0] + Recovery(c, segments).segments == Recovery(c, segments).segments;
      }
    } else {
      assert IsComplete(c, segments[0]);
      forall j | 0 <= j < i - 1 ensures IsComplete(c, segments[1..][j]) {
        assert segments[1..][j] == segments[j + 1];
      }
      RecoveryStep(c, segments[1..], i - 1);
      assert segments[1..][i - 1..] == segments[i..];
      if Recovery(c, segments[i..]).Recovered? {
        var rest := Recovery(c, segments[i..]).segments;
        assert [segments[0]] + (segments[1..][..i - 1] + rest) == segments[..i] + rest;
      }
    }
  }

  predicate IsComplete(c: Codec, s: Segment) {
    var r := SegmentResult(c, SegmentName(s.index), s.bytes, 0);
    r.ReadResult? && r.isComplete
  }

  /** The pass reaches the first segment that is not complete, and ends there. */
  lemma RecoveryAt(c: Codec, segments: seq<Segment>, i: nat)
    requires i < |segments| && !IsComplete(c, segments[i])
    requires forall j | 0 <= j < i :: IsComplete(c, segments[j])
    ensures
      var s := segments[i];
      Recovery(c, segments) ==
        match SegmentResult(c, SegmentName(s.index), s.bytes, 0)
        case ReadThrew => RecoveryThrew
        case ReadResult(_, validLength, _) => Recovered(segments[i := s.(bytes := s.bytes[..validLength])])
  {
    hide SegmentResult;
    RecoveryStep(c, segments, i);
    if Recovery(c, segments[i..]).Recovered? {
      var cut := Recovery(c, segments[i..]).segments[0];
      assert segments[..i] + ([cut] + segments[i..][1..]) == segments[i := cut];
    }
  }

  /** Recovery at startup, in place. */
  method Recover(c: Codec, directory: WalDirectory) returns (ok: bool)
    modifies directory`segments
    ensures
      match Recovery(c, old(directory.segments))
      case Recovered(r) => ok && directory.segments == r
      case RecoveryThrew => !ok && directory.segments == old(directory.segments)
  {
    hide SegmentResult, Recovery, SegmentName;
    var listing := directory.segments;
    for i := 0 to |listing|
      invariant directory.segments == listing
      invariant forall j | 0 <= j < i :: IsComplete(c, listing[j])
    {
      var segment := listing[i];
      var result := ReadSegmentWithResult(c, SegmentName(segment.index), segment.bytes, 0);
      if result.ReadThrew? || !result.isComplete {
        RecoveryAt(c, listing, i);
      }
      if result.ReadThrew? {
        return false;
      }
      if !result.isComplete {
        directory.segments := listing[i := segment.(bytes := segment.bytes[..result.validLength])];
        return true;
      }
    }
    RecoveryAllComplete(c, listing);
    ok := true;
  }

  lemma ScanWithin(c: Codec, s: Segment)
    ensures
      var r := SegmentResult(c, SegmentName(s.index), s.bytes, 0);
      r.ReadResult? ==> (r.isComplete <==> r.validLength == |s.bytes|)
  {
    ScanEnd(c, SegmentName(s.index), s.bytes, 0);
  }

  lemma {:induction false} ScanEnd(c: Codec, name: string, content: seq<byte>, pos: nat)
    requires pos <= |content|
    ensures
      var s := ScanFrom(c, name, content, pos, |content|);
      s.fate == ReachedLimit <==> s.fate != Threw && s.validLength == |content|
    decreases |content| - pos
  {
    hide TryReadAt;
    var step := TryReadAt(c, name, content, pos, |content|);
    if pos < |content| && step.Record? { ScanEnd(c, name, content, step.rec.nextOffset); }
  }

  lemma {:induction false} RecoveryAllComplete(c: Codec, segments: seq<Segment>)
    requires forall j | 0 <= j < |segments| :: IsComplete(c, segments[j])
    ensures Recovery(c, segments) == Recovered(segments)
    decreases |segments|
  {
    hide SegmentResult;
    if segments != [] {
      assert IsComplete(c, segments[0]);
      forall j | 0 <= j < |segments| - 1 ensures IsComplete(c, segments[1..][j]) {
        assert segments[1..][j] == segments[j + 1];
      }
      RecoveryAllComplete(c, segments[1..]);
    }
  }

  function Incomplete(c: Codec, segments: seq<Segment>): nat {
    if segments == [] then 0
    else (if IsComplete(c, segments[0]) then 0 else 1) + Incomplete(c, segments[1..])
  }

  /** On any directory whatever, each pass repairs one incomplete segment: it changes
      nothing exactly when none is left, so two passes equal one exactly when at most
      one segment was incomplete. */
  lemma {:induction false} RecoveryRepairsOne(c: Codec, segments: seq<Segment>)
    requires Recovery(c, segments).Recovered?
    ensures
      var r := Recovery(c, segments).segments;
      && Incomplete(c, r) == (if Incomplete(c, segments) == 0 then 0 else Incomplete(c, segments) - 1)
      && (r == segments <==> Incomplete(c, segments) == 0)
      && (Recovery(c, r) == Recovered(r) <==> Incomplete(c, segments) <= 1)
    decreases |segments|
  {
    hide SegmentResult;
    if segments == [] {
      return;
    }
    var s := segments[0];
    var r := Recovery(c, segments).segments;
    if IsComplete(c, s) {
      RecoveryRepairsOne(c, segments[1..]);
      assert r[1..] == Recovery(c, segments[1..]).segments;
      assert segments == [s] + segments[1..];
    } else {
      ScanWithin(c, s);
      CutIsComplete(c, s);
      assert r[1..] == segments[1..];
      RecoveryFixed(c, segments[1..]);
      RecoveryFixed(c, r);
      assert IsComplete(c, r[0]);
    }
  }

  lemma CutIsComplete(c: Codec, s: Segment)
    requires SegmentResult(c, SegmentName(s.index), s.bytes, 0).ReadResult?
    ensures
      var r := SegmentResult(c, SegmentName(s.index), s.bytes, 0);
      && r.validLength <= |s.bytes|
      && SegmentResult(c, SegmentName(s.index), s.bytes[..r.validLength], 0)
         == ReadResult(r.records, r.validLength, true)
  {
    hide ScanFrom;
    ScanWithin(c, s);
    ScanCut(c, SegmentName(s.index), s.bytes, 0);
  }

  /** A pass leaves a directory alone exactly when every segment is complete. */
  lemma {:induction false} RecoveryFixed(c: Codec, segments: seq<Segment>)
    ensures Recovery(c, segments) == Recovered(segments) <==> Incomplete(c, segments) == 0
    decreases |segments|
  {
    hide SegmentResult;
    if segments != [] {
      RecoveryFixed(c, segments[1..]);
      var s := segments[0];
      ScanWithin(c, s);
      assert segments == [s] + segments[1..];
      if IsComplete(c, s) && Recovery(c, segments) == Recovered(segments) {
        var rest := Recovery(c, segments[1..]).segments;
        assert ([s] + rest)[1..] == rest;
      }
    }
  }

  /** A sound segment reads as its events, complete exactly when nothing is dark. */
  lemma ChunkReads(c: Codec, k: Chunk)
    requires Lawful(c) && AllStorable(c, k.events) && Quiet(c, k.dark)
    ensures
      var s := Segment(k.index, Content(c, k));
      && SegmentResult(c, SegmentName(s.index), s.bytes, 0)
         == ReadResult(ChunkRecords(c, k), |Frames(c, k.events)|, k.dark == [])
      && (IsComplete(c, s) <==> k.dark == [])
      && s.bytes[..|Frames(c, k.events)|] == Content(c, k.(dark := []))
  {
    hide SegmentResult, Frames, Records, Quiet;
    DarkSegment(c, SegmentName(k.index), k.events, k.dark);
  }

  /** On sound segments a pass cuts the first dark one to its events, wherever it is, and
      leaves all others as they are. */
  lemma {:induction false} RecoveryMends(c: Codec, segments: seq<Segment>, chunks: seq<Chunk>)
    requires Lawful(c) && Sound(c, chunks) && StoresAll(c, segments, chunks)
    ensures Recovery(c, segments).Recovered?
    ensures StoresAll(c, Recovery(c, segments).segments, Mend(chunks))
    decreases |chunks|
  {
    hide SegmentResult, Content, Quiet, SegmentName, AllStorable;
    if chunks != [] {
      var s, k := segments[0], chunks[0];
      ChunkReads(c, k);
      if k.dark == [] {
        RecoveryMends(c, segments[1..], chunks[1..]);
        var r, m := Recovery(c, segments[1..]).segments, Mend(chunks[1..]);
        assert Recovery(c, segments).segments == [s] + r && Mend(chunks) == [k] + m;
        assert forall i | 0 < i < |chunks| :: ([s] + r)[i] == r[i - 1] && ([k] + m)[i] == m[i - 1];
      }
    }
  }

  /** Crash recovery: when the last segment was cut at any byte and no other is dark,
      every segment is whole afterwards, every complete record is there, and exactly the
      torn one is gone. */
  lemma RecoveryRestores(c: Codec, segments: seq<Segment>, chunks: seq<Chunk>, n: nat)
    requires Lawful(c) && Sound(c, chunks) && Ascending(chunks) && Stores(c, segments, chunks, n)
    requires forall i | 0 <= i < |chunks| :: chunks[i].dark == []
    ensures Recovery(c, segments).Recovered?
    ensures
      var r := Truncate(c, chunks, n);
      && StoresAll(c, Recovery(c, segments).segments, r)
      && (forall i | 0 <= i < |r| :: r[i].dark == [])
      && AllRecords(c, r) <= AllRecords(c, chunks) && |AllRecords(c, r)| == Durable(c, chunks, n)
  {
    hide SegmentResult, Content, Frames, Quiet, AllRecords, Durable, Recovery, Cut, AllStorable;
    CrashLeaves(c, segments, chunks, n);
    TruncateIsSound(c, chunks, n);
    RecoveryMends(c, segments, CutLast(c, chunks, n));
    TruncateRecords(c, chunks, n);
    OneMend(CutLast(c, chunks, n));
  }

  /** Recovery never cuts a segment below a checkpoint that was saved for a record out of
      the buffer. */
  lemma RecoveryKeepsCheckpoint(c: Codec, chunks: seq<Chunk>, n: nat, cp: Checkpoint, at: nat)
    requires |chunks| > 0 && n <= |Content(c, chunks[|chunks| - 1])|
    requires StandsAt(c, chunks, cp, at)
    requires Ascending(chunks) && at <= Durable(c, chunks, n)
    ensures StandsAt(c, Truncate(c, chunks, n), cp, at)
  {
    hide AllRecords, Flat, Durable, Truncate, Content;
    TruncateRecords(c, chunks, n);
  }
}
