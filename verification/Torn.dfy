/** An append cancelled between the writes of a record, and the appends behind it: which
    events are read afterwards, when reading is disturbed, and what recovery leaves. */
module Torn {
  import opened Contracts
  import opened Checksums
  import opened Framing
  import opened Log
  import opened Wal
  import opened Outbox

  /** A segment ends in the dark after an append exactly when its token was cancelled
      between the writes of a record. Then the whole records before are read, and the
      dark bytes are the first ones of the next record. */
  lemma TearsExactly(c: Codec, max: int, chunks: seq<Chunk>, batch: seq<ShareEvent>, looks: nat)
    requires |chunks| > 0 && !Dark(chunks)
    ensures
      var t, n := Appending(c, max, chunks, batch, looks), LeadingValid(c, batch);
      var w := RecordsWritten(looks, n);
      && (Dark(t) <==> Tears(looks, n))
      && Flat(t) == Flat(chunks) + batch[..w]
      && (Tears(looks, n) ==> t[|t| - 1].dark == FrameOf(c, batch[w])[..TornLength(c, looks, batch[w])])
  {
    hide PutAll, AllRecords, Flat, FrameOf, Content, Hidden, LeadingValid, Payload;
    var n := LeadingValid(c, batch);
    var w := RecordsWritten(looks, n);
    var r := PutAll(c, max, chunks, batch[..w]);
    PutAllRecords(c, max, chunks, batch[..w]);
    AppendingRecords(c, max, chunks, batch, looks);
    assert batch[..w][0..] == batch[..w];
    if Tears(looks, n) {
      var room := MakeRoom(c, max, r, batch[w]);
      var torn := FrameOf(c, batch[w])[..TornLength(c, looks, batch[w])];
      assert room[|room| - 1].dark == [];
      assert [] + torn == torn;
    }
  }

  // ---------- Appends behind a torn record ----------

  predicate Fits(c: Codec, max: int, chunks: seq<Chunk>, es: seq<ShareEvent>)
    requires |chunks| > 0
  {
    |Content(c, chunks[|chunks| - 1])| + |Frames(c, es)| <= max
  }

  lemma FramesSnoc(c: Codec, es: seq<ShareEvent>)
    requires es != []
    ensures Frames(c, es) == Frames(c, es[..|es| - 1]) + FrameOf(c, es[|es| - 1])
  {
    hide FrameOf, Frames;
    var k := |es| - 1;
    assert es == es[..k] + [es[k]];
    FramesConcat(c, es[..k], [es[k]]);
    OneFrame(c, es[k]);
  }

  /** `r` is `t` with `es` behind its torn record, and perhaps further segments, which
      are whole. */
  predicate Behind(c: Codec, t: seq<Chunk>, es: seq<ShareEvent>, r: seq<Chunk>)
    requires |t| > 0
  {
    && |t| <= |r|
    && r[..|t|] == Darken(t, Frames(c, es))
    && forall i | |t| <= i < |r| :: r[i].dark == []
  }

  lemma PutHidden(c: Codec, max: int, t: seq<Chunk>, es: seq<ShareEvent>, e: ShareEvent)
    requires |t| > 0 && Dark(t)
    ensures
      var r := Put(c, max, Darken(t, Frames(c, es)), e);
      if Fits(c, max, t, es + [e]) then r == Darken(t, Frames(c, es + [e])) && Dark(r)
      else Behind(c, t, es, r) && |r| == |t| + 1
  {
    hide FrameOf, Frames;
    FramesSnoc(c, es + [e]);
    var k := |t| - 1;
    var d := Darken(t, Frames(c, es));
    DarkenTwice(t, Frames(c, es), FrameOf(c, e));
    assert (es + [e])[..|es|] == es;
    assert Content(c, d[k]) == Content(c, t[k]) + Frames(c, es);
    assert Darken(d, FrameOf(c, e))[k].dark == d[k].dark + FrameOf(c, e);
  }

  lemma PutBehind(c: Codec, max: int, t: seq<Chunk>, es: seq<ShareEvent>, r: seq<Chunk>, e: ShareEvent)
    requires |t| > 0 && Behind(c, t, es, r) && |t| < |r|
    ensures Behind(c, t, es, Put(c, max, r, e)) && !Dark(Put(c, max, r, e)) && |t| < |Put(c, max, r, e)|
  {
    hide FrameOf, Frames, Content, Darken;
    var s := Put(c, max, r, e);
    assert s[..|t|] == r[..|t|];
  }

  /** Behind a torn record exactly those records are hidden that still fit its segment;
      from the first that does not fit, everything is written to fresh segments. */
  lemma {:induction false} BehindATear(c: Codec, max: int, t: seq<Chunk>, es: seq<ShareEvent>)
    requires |t| > 0 && Dark(t)
    ensures
      var r, h := PutAll(c, max, t, es), Hidden(c, max, t, es);
      && Behind(c, t, es[..h], r)
      && (if h == |es| then r == Darken(t, Frames(c, es)) else |t| < |r| && !Fits(c, max, t, es[..h + 1]))
      && (h > 0 ==> Fits(c, max, t, es[..h]))
    decreases |es|
  {
    hide FrameOf, Frames, Put, Fits, Behind, Darken, Content;
    if es == [] {
      NothingBehind(c, t, es);
    } else {
      var init, e := es[..|es| - 1], es[|es| - 1];
      BehindATear(c, max, t, init);
      var before, h := PutAll(c, max, t, init), Hidden(c, max, t, init);
      assert es == init + [e] && es[..h] == init[..h];
      if h < |init| {
        assert es[..h + 1] == init[..h + 1];
        PutBehind(c, max, t, init[..h], before, e);
      } else {
        assert init[..h] == init && es[..h + 1] == es;
        PutHidden(c, max, t, init, e);
        if Fits(c, max, t, es) {
          WholeBehind(c, t, es);
        } else {
          NewIsLight(c, t, init, PutAll(c, max, t, es));
        }
      }
    }
  }

  lemma NothingBehind(c: Codec, t: seq<Chunk>, es: seq<ShareEvent>)
    requires |t| > 0 && es == []
    ensures Behind(c, t, es[..0], t) && t == Darken(t, Frames(c, es))
  {
    var k := |t| - 1;
    assert t[k].dark + [] == t[k].dark;
    assert t[..k] + [t[k]] == t;
  }

  lemma WholeBehind(c: Codec, t: seq<Chunk>, es: seq<ShareEvent>)
    requires |t| > 0
    ensures Behind(c, t, es, Darken(t, Frames(c, es)))
  {
    hide Frames;
  }

  lemma NewIsLight(c: Codec, t: seq<Chunk>, es: seq<ShareEvent>, r: seq<Chunk>)
    requires |t| > 0 && Behind(c, t, es, r) && |r| > |t|
    ensures !Dark(r)
  {
  }

  lemma {:induction false} FramesLonger(c: Codec, es: seq<ShareEvent>, i: nat, j: nat)
    requires i <= j <= |es|
    ensures |Frames(c, es[..i])| <= |Frames(c, es[..j])|
  {
    hide FrameOf, Frames;
    assert es[..j] == es[..i] + es[i..j];
    FramesConcat(c, es[..i], es[i..j]);
  }

  /** How many records are hidden is told by their sizes before they are written. */
  lemma HiddenIsWhatFits(c: Codec, max: int, t: seq<Chunk>, es: seq<ShareEvent>, i: nat)
    requires |t| > 0 && Dark(t) && 0 < i <= |es|
    ensures i <= Hidden(c, max, t, es) <==> Fits(c, max, t, es[..i])
  {
    hide FrameOf, Frames, PutAll, Hidden, Content, Behind, Dark;
    BehindATear(c, max, t, es);
    var h := Hidden(c, max, t, es);
    if i <= h { FramesLonger(c, es, i, h); } else { FramesLonger(c, es, h + 1, i); }
  }

  /** Whatever is appended behind a torn record disturbs the reader only in its segment. */
  lemma SoundBehind(c: Codec, t: seq<Chunk>, hidden: seq<ShareEvent>, r: seq<Chunk>)
    requires |t| > 0 && Sound(c, t) && Behind(c, t, hidden, r)
    requires forall i | |t| <= i < |r| :: AllStorable(c, r[i].events)
    ensures Sound(c, r) <==> Quiet(c, t[|t| - 1].dark + Frames(c, hidden))
  {
    hide Frames, Quiet, AllStorable;
    NothingIsQuiet(c);
    var k := |t| - 1;
    assert forall i | 0 <= i < |t| :: r[i] == r[..|t|][i];
    assert r[k].dark == t[k].dark + Frames(c, hidden) && r[k].events == t[k].events;
    assert forall i | 0 <= i < k :: r[i] == t[i];
  }

  lemma {:induction false} PutAllStorable(c: Codec, max: int, t: seq<Chunk>, es: seq<ShareEvent>)
    requires |t| > 0 && AllStorable(c, es)
    requires forall i | 0 <= i < |t| :: AllStorable(c, t[i].events)
    ensures forall i | 0 <= i < |PutAll(c, max, t, es)| :: AllStorable(c, PutAll(c, max, t, es)[i].events)
    decreases |es|
  {
    hide FrameOf, Content;
    if es != [] {
      var init := es[..|es| - 1];
      PutAllStorable(c, max, t, init);
      assert Storable(c, es[|es| - 1]);
    }
  }

  /** The bytes an append leaves behind a torn record, in its segment: the whole records that
      fit it, and the first bytes of another one if that was cancelled there. */
  function Shaded(c: Codec, max: int, chunks: seq<Chunk>, events: seq<ShareEvent>, looks: nat): seq<byte>
    requires |chunks| > 0
  {
    var n := LeadingValid(c, events);
    var w := RecordsWritten(looks, n);
    var h := Hidden(c, max, chunks, events[..w]);
    Frames(c, events[..h]) +
    if h == w && Tears(looks, n) && Fits(c, max, chunks, events[..w + 1])
    then FrameOf(c, events[w])[..TornLength(c, looks, events[w])] else []
  }

  /** `r` is `t` with more bytes behind its torn record and further segments that disturb no
      reader. */
  predicate Shades(c: Codec, t: seq<Chunk>, bytes: seq<byte>, r: seq<Chunk>)
    requires |t| > 0
  {
    && |t| <= |r| && r[..|t|] == Darken(t, bytes)
    && forall i | |t| <= i < |r| :: AllStorable(c, r[i].events) && Quiet(c, r[i].dark)
  }

  lemma ShadesSound(c: Codec, t: seq<Chunk>, bytes: seq<byte>, r: seq<Chunk>)
    requires |t| > 0 && Sound(c, t) && Shades(c, t, bytes, r)
    ensures Sound(c, r) <==> Quiet(c, t[|t| - 1].dark + bytes)
    ensures r[|t| - 1].dark == t[|t| - 1].dark + bytes
  {
    hide Quiet, AllStorable;
    var k := |t| - 1;
    assert forall i | 0 <= i < |t| :: r[i] == r[..|t|][i];
    assert r[k].dark == t[k].dark + bytes && r[k].events == t[k].events;
    assert forall i | 0 <= i < k :: r[i] == t[i];
  }

  lemma BehindShades(c: Codec, max: int, t: seq<Chunk>, es: seq<ShareEvent>)
    requires |t| > 0 && Dark(t) && Sound(c, t) && AllStorable(c, es)
    ensures Shades(c, t, Frames(c, es[..Hidden(c, max, t, es)]), PutAll(c, max, t, es))
  {
    hide PutAll, Hidden, Frames, Quiet, Fits, Dark, AllStorable, Darken;
    BehindATear(c, max, t, es);
    SoundIsStorable(c, t);
    PutAllStorable(c, max, t, es);
    NothingIsQuiet(c);
  }

  lemma SoundIsStorable(c: Codec, chunks: seq<Chunk>)
    requires Sound(c, chunks)
    ensures forall i | 0 <= i < |chunks| :: AllStorable(c, chunks[i].events)
  {
    hide Quiet;
  }

  /** A segment opened for a record, and the first bytes of that record in it. */
  lemma TearShades(c: Codec, t: seq<Chunk>, bytes: seq<byte>, r: seq<Chunk>, added: Chunk, e: ShareEvent, n: nat)
    requires |t| > 0 && Shades(c, t, bytes, r) && Lawful(c) && Storable(c, e) && n < |FrameOf(c, e)|
    requires added.events == [] && added.dark == []
    ensures Shades(c, t, bytes, r + [added])
    ensures Shades(c, t, bytes, Darken(r + [added], FrameOf(c, e)[..n]))
    ensures |r| > |t| && !Dark(r) ==> Shades(c, t, bytes, Darken(r, FrameOf(c, e)[..n]))
  {
    hide Quiet, FrameOf;
    NothingIsQuiet(c);
    TornIsQuiet(c, e, n);
    var torn := FrameOf(c, e)[..n];
    assert [] + torn == torn;
    assert (r + [added])[..|t|] == r[..|t|];
    assert Darken(r + [added], torn)[..|t|] == r[..|t|];
    if |r| > |t| { assert Darken(r, torn)[..|t|] == r[..|t|]; }
  }

  /** More bytes behind those of a torn record. */
  lemma DarkenShades(c: Codec, t: seq<Chunk>, a: seq<byte>, b: seq<byte>)
    requires |t| > 0
    ensures Shades(c, t, a + b, Darken(Darken(t, a), b))
  {
    DarkenTwice(t, a, b);
    assert Darken(t, a + b)[..|t|] == Darken(t, a + b);
  }

  /** Whether a record that is cancelled stays behind the torn one. */
  lemma RoomBehind(c: Codec, max: int, t: seq<Chunk>, es: seq<ShareEvent>, e: ShareEvent)
    requires |t| > 0 && Dark(t)
    ensures
      var d := Darken(t, Frames(c, es));
      MakeRoom(c, max, d, e) == if Fits(c, max, t, es + [e]) then d else d + [Chunk(d[|d| - 1].index + 1, [], [])]
  {
    hide FrameOf, Frames;
    FramesSnoc(c, es + [e]);
    assert (es + [e])[..|es|] == es;
    var k, d := |t| - 1, Darken(t, Frames(c, es));
    assert Content(c, d[k]) == Content(c, t[k]) + Frames(c, es);
  }

  /** An append to a segment that ends in the dark, whenever it is cancelled: the bytes that
      stay in that segment, and no other segment disturbs a reader. So reading is
      undisturbed afterwards exactly when it stops at these bytes. */
  lemma AppendingBehindATear(c: Codec, max: int, t: seq<Chunk>, events: seq<ShareEvent>, looks: nat)
    requires |t| > 0 && Lawful(c) && Sound(c, t) && Dark(t)
    ensures
      var r, shaded := Appending(c, max, t, events, looks), Shaded(c, max, t, events, looks);
      && Shades(c, t, shaded, r)
      && (Sound(c, r) <==> Quiet(c, t[|t| - 1].dark + shaded))
  {
    hide PutAll, Hidden, Frames, FrameOf, Quiet, Fits, Dark, AllStorable, Darken, Shades, MakeRoom, LeadingValid, TornLength, Sound;
    var n := LeadingValid(c, events);
    var w := RecordsWritten(looks, n);
    var es := events[..w];
    var h := Hidden(c, max, t, es);
    var r := PutAll(c, max, t, es);
    LeadingStorable(c, events, w);
    BehindShades(c, max, t, es);
    BehindATear(c, max, t, es);
    assert es[..h] == events[..h];
    assert Frames(c, events[..h]) + [] == Frames(c, events[..h]);
    if !(looks == 0 || w == n || (looks - 1) % 4 == 0) {
      RoomStage(c, max, t, events, looks, w);
    }
    ShadesSound(c, t, Shaded(c, max, t, events, looks), Appending(c, max, t, events, looks));
  }

  lemma LeadingStorable(c: Codec, events: seq<ShareEvent>, w: nat)
    requires w <= LeadingValid(c, events)
    ensures AllStorable(c, events[..w])
    ensures w < LeadingValid(c, events) ==> Storable(c, events[w])
  {
    var n := LeadingValid(c, events);
    assert forall i | 0 <= i < n :: Accepted(c, events[i]);
  }

  lemma RoomStage(c: Codec, max: int, t: seq<Chunk>, events: seq<ShareEvent>, looks: nat, w: nat)
    requires |t| > 0 && Lawful(c) && Sound(c, t) && Dark(t)
    requires w == RecordsWritten(looks, LeadingValid(c, events)) < LeadingValid(c, events)
    requires looks > 0 && (looks - 1) % 4 != 0
    ensures Shades(c, t, Shaded(c, max, t, events, looks), Appending(c, max, t, events, looks))
  {
    hide PutAll, Hidden, Frames, FrameOf, Quiet, Fits, AllStorable, Darken, Shades, LeadingValid, Payload, Sound;
    var e, es := events[w], events[..w];
    var h, r := Hidden(c, max, t, es), PutAll(c, max, t, es);
    LeadingStorable(c, events, w);
    BehindShades(c, max, t, es);
    BehindATear(c, max, t, es);
    assert es[..h] == events[..h];
    assert Frames(c, events[..h]) + [] == Frames(c, events[..h]);
    var room := MakeRoom(c, max, r, e);
    var added := Chunk(r[|r| - 1].index + 1, [], []);
    var torn := FrameOf(c, e)[..TornLength(c, looks, e)];
    TearShades(c, t, Frames(c, es[..h]), r, added, e, TornLength(c, looks, e));
    if h == w {
      assert es[..h] == es && events[..w + 1] == es + [e];
      RoomBehind(c, max, t, es, e);
      DarkenShades(c, t, Frames(c, es), torn);
    } else {
      NewIsLight(c, t, es[..h], r);
    }
  }

  /** The first bytes of a record and what was written behind them: a reader stops at them,
      unless a checksum happens to be right. With the header alone, the next bytes are
      taken for the payload; with header and payload, the magic number of the next record
      is taken for the checksum. */
  lemma TornQuiet(c: Codec, e: ShareEvent, looks: nat, hidden: seq<ShareEvent>)
    requires Lawful(c) && Storable(c, e)
    ensures
      var torn, behind, n := FrameOf(c, e)[..TornLength(c, looks, e)], Frames(c, hidden), |Payload(c, e)|;
      Quiet(c, torn + behind) <==>
        if looks > 0 && (looks - 1) % 4 == 2 then
          |behind| < n + 4 || FromLE32(behind[n..n + 4]) != Fnv1a(behind[..n]) || c.decode(behind[..n]) == Null
        else
          hidden == [] || Fnv1a(Payload(c, e)) != MAGIC
  {
    hide Quiet, Frames, FromLE32, Fnv1a, Payload, Header;
    var payload, behind := Payload(c, e), Frames(c, hidden);
    FrameParts(payload);
    if looks > 0 && (looks - 1) % 4 == 2 {
      TornHeaderQuiet(c, payload, behind);
    } else {
      TornPayloadQuiet(c, e, behind);
      if hidden == [] {
        NoFrames(c, hidden);
      } else {
        FramesStartWithMagic(c, hidden, []);
        assert behind + [] == behind;
      }
    }
  }

  lemma NoFrames(c: Codec, es: seq<ShareEvent>)
    requires es == []
    ensures Frames(c, es) == []
  {
  }

  lemma FrameParts(payload: seq<byte>)
    requires |payload| <= MAX_ARRAY
    ensures Frame(payload)[..HEADER] == Header(payload)
    ensures Frame(payload)[..HEADER + |payload|] == Header(payload) + payload
  {
    hide Header, Fnv1a, LE32;
    var h := Header(payload);
    assert h + payload + LE32(Fnv1a(payload)) == h + (payload + LE32(Fnv1a(payload)));
  }

  // ---------- The retry ----------

  /** A batch whose append was torn is appended again, and more after it. Its records
      before the tear are read in any case. Of the second time all are read exactly when
      the first of them no longer fits the torn segment; otherwise as many are hidden as
      do fit, and the reader is undisturbed exactly when the torn bytes with them are
      quiet. */
  lemma RetryAfterTear(c: Codec, max: int, chunks: seq<Chunk>, batch: seq<ShareEvent>, looks: nat, more: seq<ShareEvent>)
    requires Lawful(c) && |chunks| > 0 && Sound(c, chunks) && !Dark(chunks)
    requires LeadingValid(c, batch) == |batch| && AllStorable(c, more) && Tears(looks, |batch|)
    ensures
      var t, w, all := Appending(c, max, chunks, batch, looks), RecordsWritten(looks, |batch|), batch + more;
      var r, h := PutAll(c, max, t, all), Hidden(c, max, t, all);
      && Flat(r) == Flat(chunks) + batch[..w] + all[h..]
      && (h == 0 <==> !Fits(c, max, t, all[..1]))
      && (Sound(c, r) <==> Quiet(c, FrameOf(c, batch[w])[..TornLength(c, looks, batch[w])] + Frames(c, all[..h])))
      && (h == 0 ==> Sound(c, r))
  {
    hide PutAll, Hidden, Flat, AllRecords, Frames, FrameOf, Appending, Quiet, Content, Behind, Fits, TornLength, LeadingValid;
    var t, w, all := Appending(c, max, chunks, batch, looks), RecordsWritten(looks, |batch|), batch + more;
    var h := Hidden(c, max, t, all);
    TearsExactly(c, max, chunks, batch, looks);
    AppendingSound(c, max, chunks, batch, looks);
    PutAllRecords(c, max, t, all);
    BehindATear(c, max, t, all);
    HiddenIsWhatFits(c, max, t, all, 1);
    ValidIsStorable(c, batch, more);
    PutAllStorable(c, max, t, all);
    SoundBehind(c, t, all[..h], PutAll(c, max, t, all));
    if h == 0 {
      NoFrames(c, all[..h]);
      var dark := t[|t| - 1].dark;
      assert dark + [] == dark;
    }
  }

  lemma ValidIsStorable(c: Codec, batch: seq<ShareEvent>, more: seq<ShareEvent>)
    requires LeadingValid(c, batch) == |batch| && AllStorable(c, more)
    ensures AllStorable(c, batch + more)
  {
    var n := LeadingValid(c, batch);
    assert forall i | 0 <= i < n :: Accepted(c, batch[i]);
  }

  predicate NoRepeats<T(==)>(s: seq<T>) {
    forall i, j | 0 <= i < j < |s| :: s[i] != s[j]
  }

  /** With events that are new and differ from one another, those not read are the ones
      that are hidden and were not written before the tear: none exactly when no more are
      hidden than were written. */
  lemma LostExactly<T>(log: seq<T>, all: seq<T>, w: nat, h: nat)
    requires NoRepeats(all) && (forall e | e in all :: e !in log) && w <= |all| && h <= |all|
    ensures
      var read := log + all[..w] + all[h..];
      && (forall e | e in all :: e !in read <==> exists i :: w <= i < h && all[i] == e)
      && ((forall e | e in all :: e in read) <==> h <= w)
  {
    var read := log + all[..w] + all[h..];
    forall e | e in all ensures e !in read <==> exists i :: w <= i < h && all[i] == e {
      var i :| 0 <= i < |all| && all[i] == e;
      if i < w { assert all[..w][i] == e; }
      if h <= i { assert all[h..][i - h] == e; }
      if e in all[..w] { var j :| 0 <= j < w && all[j] == e; }
      if e in all[h..] { var j :| 0 <= j < |all| - h && all[h..][j] == e; assert all[h + j] == e; }
    }
    if w < h { assert all[w] in all; }
  }

  /** A single event, torn behind its payload and appended again to a segment with room for
      it, is not read at all. */
  lemma RetryIsLost(c: Codec, max: int, e: ShareEvent)
    requires Lawful(c) && Accepted(c, e) && Fnv1a(Payload(c, e)) != MAGIC
    requires HEADER + |Payload(c, e)| + |FrameOf(c, e)| <= max
    ensures
      var t := Appending(c, max, [Chunk(1, [], [])], [e], 4);
      Sound(c, PutAll(c, max, t, [e])) && Flat(PutAll(c, max, t, [e])) == []
  {
    hide PutAll, Flat, AllRecords, Frames, FrameOf, Quiet, Fnv1a, Payload, Hidden;
    var chunks, all := [Chunk(1, [], [])], [e];
    var t := Appending(c, max, chunks, all, 4);
    NothingIsQuiet(c);
    Singleton(c, chunks[0]);
    NoFrames(c, []);
    PutNone(c, max, chunks, all[..0]);
    assert LeadingValid(c, all) == 1 by { assert all[1..] == []; }
    RetryAfterTear(c, max, chunks, all, 4, []);
    assert all + [] == all && all[..1] == all && all[1..] == [];
    OneFrame(c, e);
    HiddenIsWhatFits(c, max, t, all, 1);
    assert [] + [] + t[0].dark == t[0].dark;
    TornQuiet(c, e, 4, all);
  }

  /** There is such an event. */
  lemma TornRetryLosesAnEvent(max: int) returns (e: ShareEvent)
    requires max >= 26
    ensures Lawful(SAMPLE_CODEC) && Accepted(SAMPLE_CODEC, e)
    ensures
      var t := Appending(SAMPLE_CODEC, max, [Chunk(1, [], [])], [e], 4);
      Sound(SAMPLE_CODEC, PutAll(SAMPLE_CODEC, max, t, [e])) && Flat(PutAll(SAMPLE_CODEC, max, t, [e])) == []
  {
    hide Fnv1a, PutAll, Flat, Appending, Sound;
    SampleCodecIsLawful();
    var a, b := "a", "b";
    assert a[0] !in " \t\r\n" && b[0] !in " \t\r\n";
    assert Bytes(a)[0 := 98] == Bytes(b);
    SingleByteCorruptionDetected(Bytes(a), 0, 98);
    e := Sample(if Fnv1a(Bytes(a)) != MAGIC then a else b);
    RetryIsLost(SAMPLE_CODEC, max, e);
  }

  /** What recovery makes of it after the process has ended: the torn segment is cut to its
      records, with it the hidden ones are gone, and every segment written after it stays
      byte for byte, so the same events are read as before. */
  lemma RecoveryAfterTear(c: Codec, max: int, t: seq<Chunk>, all: seq<ShareEvent>, segments: seq<Segment>)
    requires Lawful(c) && |t| > 0 && Dark(t) && (forall i | 0 <= i < |t| - 1 :: t[i].dark == [])
    requires Sound(c, PutAll(c, max, t, all)) && StoresAll(c, segments, PutAll(c, max, t, all))
    ensures Recovery(c, segments).Recovered?
    ensures
      var r, k := PutAll(c, max, t, all), |t| - 1;
      var s := Recovery(c, segments).segments;
      && |s| == |segments| == |r| > k
      && s == segments[k := Segment(t[k].index, Frames(c, t[k].events))]
      && StoresAll(c, s, Mend(r)) && Flat(Mend(r)) == Flat(r)
  {
    hide PutAll, Hidden, Flat, AllRecords, Frames, Recovery, Sound, Behind, Mend, Content, Lawful;
    var r, k := PutAll(c, max, t, all), |t| - 1;
    BehindATear(c, max, t, all);
    BehindShape(c, t, all[..Hidden(c, max, t, all)], r);
    RecoveryMends(c, segments, r);
    SameRecords(c, r, Mend(r));
    MendAt(r, k);
    NothingDark(c, r[k]);
    var s := Recovery(c, segments).segments;
    assert forall i | 0 <= i < |r| && i != k :: s[i] == segments[i];
  }

  lemma BehindShape(c: Codec, t: seq<Chunk>, es: seq<ShareEvent>, r: seq<Chunk>)
    requires |t| > 0 && Behind(c, t, es, r) && Dark(t)
    ensures
      var k := |t| - 1;
      && k < |r| && r[k].dark != [] && r[k].events == t[k].events && r[k].index == t[k].index
      && (forall i | 0 <= i < k :: r[i] == t[i])
  {
    hide Frames;
    assert forall i | 0 <= i < |t| :: r[i] == r[..|t|][i];
  }

  lemma NothingDark(c: Codec, k: Chunk)
    ensures Content(c, k.(dark := [])) == Frames(c, k.events)
  {
    hide Frames;
  }

  lemma {:induction false} MendAt(chunks: seq<Chunk>, k: nat)
    requires k < |chunks| && chunks[k].dark != []
    requires forall i | 0 <= i < k :: chunks[i].dark == []
    ensures Mend(chunks) == chunks[k := chunks[k].(dark := [])]
    decreases k
  {
    if k > 0 {
      MendAt(chunks[1..], k - 1);
      assert chunks == [chunks[0]] + chunks[1..];
    }
  }
}
