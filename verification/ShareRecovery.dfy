/** ShareRecorder.RecoverSharesAsync: importing a recovery file in transactions of a
    hundred shares, some of which fail. */
module ShareRecovery {
  import opened Contracts
  import opened KeyNames

  datatype Share = Share(poolId: string, miner: string, worker: string, difficulty: real, blockCandidate: bool)

  const BUFFER_SIZE := 100

  /** What the file is read with. */
  datatype Format = Format(cc: CharClass, parse: string -> Option<Share>)

  function Trimmed(f: Format, line: string): string {
    TrimEnd(f.cc, TrimStart(f.cc, line))
  }

  /** Blank lines and comments are skipped. */
  predicate Skipped(f: Format, line: string) {
    var t := Trimmed(f, line);
    line == "" || t == "" || t[0] == '#'
  }

  /** The shares of the file, in its order. */
  function Parsed(f: Format, lines: seq<string>): seq<Share> {
    if lines == [] then []
    else
      var line := lines[|lines| - 1];
      Parsed(f, lines[..|lines| - 1])
      + if Skipped(f, line) then [] else match f.parse(Trimmed(f, line)) case Some(s) => [s] case None => []
  }

  function Unparsable(f: Format, lines: seq<string>): nat {
    if lines == [] then 0
    else
      var line := lines[|lines| - 1];
      Unparsable(f, lines[..|lines| - 1]) + if !Skipped(f, line) && f.parse(Trimmed(f, line)).None? then 1 else 0
  }

  /** What a line adds: one that is blank, or whose first character behind its white space is
      '#', nothing; any other a share or a failure. */
  lemma LineAdds(f: Format, lines: seq<string>, front: string, core: string, back: string)
    requires AllWhite(f.cc, front) && AllWhite(f.cc, back)
    requires core != "" ==> !f.cc.whiteSpace(core[0]) && !f.cc.whiteSpace(core[|core| - 1])
    ensures
      var more := lines + [front + core + back];
      var shares, failures := Parsed(f, lines), Unparsable(f, lines);
      if core == "" || core[0] == '#' then Parsed(f, more) == shares && Unparsable(f, more) == failures
      else match f.parse(core)
        case Some(s) => Parsed(f, more) == shares + [s] && Unparsable(f, more) == failures
        case None => Parsed(f, more) == shares && Unparsable(f, more) == failures + 1
  {
    var line := front + core + back;
    var more := lines + [line];
    assert more[..|lines|] == lines && more[|lines|] == line;
    assert Parsed(f, lines) + [] == Parsed(f, lines);
    if core == "" {
      assert AllWhite(f.cc, line);
      AllTrimmed(f.cc, line);
    } else {
      assert line == front + (core + back);
      TrimmedInFront(f.cc, front, core + back);
      TrimmedBehind(f.cc, core, back);
    }
  }

  lemma {:induction false} AllTrimmed(cc: CharClass, s: string)
    requires AllWhite(cc, s)
    ensures TrimStart(cc, s) == "" && TrimEnd(cc, "") == ""
    decreases |s|
  {
    if s != [] { AllTrimmed(cc, s[1..]); }
  }

  // ---------- The import ----------

  /** The database, the buffer, the two counts, and how many transactions were tried. */
  datatype Import = Import(database: seq<Share>, shares: seq<Share>, successCount: nat, failCount: nat, tried: nat)

  function Flush(m: Import, outcome: Outcome): Import {
    var after := m.(tried := m.tried + 1);
    match outcome
    case Committed =>
      after.(database := m.database + m.shares, shares := [], successCount := m.successCount + |m.shares|)
    case RolledBack => after.(failCount := m.failCount + 1)
    case ReplyLost => after.(database := m.database + m.shares, failCount := m.failCount + 1)
  }

  function Line(f: Format, m: Import, line: string, outcome: Outcome): Import {
    if Skipped(f, line) then m
    else
      var read := match f.parse(Trimmed(f, line))
        case Some(s) => m.(shares := m.shares + [s])
        case None => m.(failCount := m.failCount + 1);
      if |read.shares| == BUFFER_SIZE then Flush(read, outcome) else read
  }

  function Lines(f: Format, m: Import, lines: seq<string>, outcomes: nat -> Outcome): Import {
    if lines == [] then m
    else
      var before := Lines(f, m, lines[..|lines| - 1], outcomes);
      Line(f, before, lines[|lines| - 1], outcomes(before.tried))
  }

  function Recovered(f: Format, m: Import, lines: seq<string>, outcomes: nat -> Outcome): Import {
    var read := Lines(f, m, lines, outcomes);
    if |read.shares| > 0 then Flush(read, outcomes(read.tried)) else read
  }

  class ShareRecorder {
    const format: Format
    var database: seq<Share>
    /** How many transactions were tried, and how each ends. */
    var tried: nat
    const outcomes: nat -> Outcome

    constructor (format: Format, outcomes: nat -> Outcome, database: seq<Share>)
      ensures this.format == format && this.outcomes == outcomes && this.database == database && tried == 0
    {
      this.format, this.outcomes, this.database, this.tried := format, outcomes, database, 0;
    }

    /** One transaction; `threw` is what the caller sees. */
    method PersistSharesCoreAsync(shares: seq<Share>) returns (threw: bool)
      modifies `database, `tried
      ensures tried == old(tried) + 1
      ensures threw == !outcomes(old(tried)).Committed?
      ensures database == old(database) + if outcomes(old(tried)).RolledBack? then [] else shares
    {
      if !outcomes(tried).RolledBack? {
        database := database + shares;
      }
      threw := !outcomes(tried).Committed?;
      tried := tried + 1;
    }

    method RecoverSharesAsync(lines: seq<string>) returns (successCount: nat, failCount: nat)
      modifies `database, `tried
      ensures
        var r := Recovered(format, Import(old(database), [], 0, 0, old(tried)), lines, outcomes);
        database == r.database && tried == r.tried && successCount == r.successCount && failCount == r.failCount
    {
      hide TrimStart, TrimEnd;
      ghost var start := Import(database, [], 0, 0, tried);
      successCount, failCount := 0, 0;
      var shares: seq<Share> := [];
      assert lines[..0] == [];
      for i := 0 to |lines|
        invariant Import(database, shares, successCount, failCount, tried) == Lines(format, start, lines[..i], outcomes)
      {
        assert lines[..i + 1][..i] == lines[..i];
        var line := lines[i];
        if |line| == 0 { continue; }
        line := TrimEnd(format.cc, TrimStart(format.cc, line));
        if |line| == 0 { continue; }
        if line[0] == '#' { continue; }
        match format.parse(line) {
          case Some(share) => shares := shares + [share];
          case None => failCount := failCount + 1;
        }
        if |shares| == BUFFER_SIZE {
          var threw := PersistSharesCoreAsync(shares);
          if threw {
            failCount := failCount + 1;
          } else {
            successCount, shares := successCount + |shares|, [];
          }
        }
      }
      assert lines[..|lines|] == lines;
      if |shares| > 0 {
        var threw := PersistSharesCoreAsync(shares);
        if threw {
          failCount := failCount + 1;
        } else {
          successCount := successCount + |shares|;
        }
      }
    }
  }

  // ---------- What was imported ----------

  function Failures(outcomes: nat -> Outcome, from: nat, until: nat): nat
    requires from <= until
  {
    if from == until then 0 else Failures(outcomes, from, until - 1) + if outcomes(until - 1).Committed? then 0 else 1
  }

  predicate RepliesKept(outcomes: nat -> Outcome, from: nat, until: nat) {
    forall i | from <= i < until :: !outcomes(i).ReplyLost?
  }

  /** With the shares read so far: the buffer is what comes behind the imported ones; the
      database holds these and, exactly if no reply was lost, no more. */
  ghost predicate Accounts(m: Import, before: Import, parsed: seq<Share>, unparsable: nat, outcomes: nat -> Outcome) {
    && before.tried <= m.tried
    && m.successCount <= |parsed| && m.shares == parsed[m.successCount..]
    && m.failCount == unparsable + Failures(outcomes, before.tried, m.tried)
    && (RepliesKept(outcomes, before.tried, m.tried) ==> m.database == before.database + parsed[..m.successCount])
    && (!RepliesKept(outcomes, before.tried, m.tried) ==> |m.database| > |before.database| + m.successCount)
  }

  lemma FlushAccounts(m: Import, before: Import, parsed: seq<Share>, unparsable: nat, outcomes: nat -> Outcome)
    requires Accounts(m, before, parsed, unparsable, outcomes) && |m.shares| > 0
    requires |m.database| >= |before.database| + m.successCount
    ensures Accounts(Flush(m, outcomes(m.tried)), before, parsed, unparsable, outcomes)
    ensures |Flush(m, outcomes(m.tried)).database| >= |before.database| + Flush(m, outcomes(m.tried)).successCount
  {
    assert RepliesKept(outcomes, before.tried, m.tried + 1)
       <==> RepliesKept(outcomes, before.tried, m.tried) && !outcomes(m.tried).ReplyLost?;
    assert parsed == parsed[..m.successCount] + parsed[m.successCount..];
    assert parsed[|parsed|..] == [] && parsed[..|parsed|] == parsed;
    assert before.database + parsed
        == (before.database + parsed[..m.successCount]) + parsed[m.successCount..];
  }

  lemma ReadAccounts(m: Import, before: Import, parsed: seq<Share>, unparsable: nat, outcomes: nat -> Outcome, s: Option<Share>)
    requires Accounts(m, before, parsed, unparsable, outcomes)
    ensures
      var read := match s case Some(x) => m.(shares := m.shares + [x]) case None => m.(failCount := m.failCount + 1);
      Accounts(read, before, match s case Some(x) => parsed + [x] case None => parsed,
               match s case Some(_) => unparsable case None => unparsable + 1, outcomes)
  {
    hide RepliesKept, Failures;
    if s.Some? {
      var more := parsed + [s.value];
      assert more[m.successCount..] == parsed[m.successCount..] + [s.value];
      assert more[..m.successCount] == parsed[..m.successCount];
    }
  }

  lemma {:induction false} LinesAccount(f: Format, before: Import, lines: seq<string>, outcomes: nat -> Outcome)
    requires before.shares == [] && before.successCount == 0 && before.failCount == 0
    ensures Accounts(Lines(f, before, lines, outcomes), before, Parsed(f, lines), Unparsable(f, lines), outcomes)
    ensures |Lines(f, before, lines, outcomes).database| >= |before.database| + Lines(f, before, lines, outcomes).successCount
    decreases |lines|
  {
    hide Accounts, Skipped, Trimmed, Flush;
    if lines == [] {
      NothingRead(before, outcomes);
    } else {
      var init, line := lines[..|lines| - 1], lines[|lines| - 1];
      LinesAccount(f, before, init, outcomes);
      var m := Lines(f, before, init, outcomes);
      if Skipped(f, line) {
        assert Parsed(f, init) + [] == Parsed(f, init);
      } else {
        var s := f.parse(Trimmed(f, line));
        ReadAccounts(m, before, Parsed(f, init), Unparsable(f, init), outcomes, s);
        var read := match s case Some(x) => m.(shares := m.shares + [x]) case None => m.(failCount := m.failCount + 1);
        assert Parsed(f, init) + [] == Parsed(f, init);
        if |read.shares| == BUFFER_SIZE {
          FlushAccounts(read, before, Parsed(f, lines), Unparsable(f, lines), outcomes);
        }
      }
    }
  }

  lemma NothingRead(before: Import, outcomes: nat -> Outcome)
    requires before.shares == [] && before.successCount == 0 && before.failCount == 0
    ensures Accounts(before, before, [], 0, outcomes)
  {
    assert before.database + [] == before.database;
  }

  /** For every file and every way its transactions end: what counts as imported is a
      prefix of the file's shares; it is exactly what the database gained if and only if
      no reply of a commit was lost; it is all of them if and only if nothing remained for
      the last transaction or it committed; and every unparsable line and every failed
      transaction was counted, none else. */
  lemma ImportedIsPrefix(f: Format, database: seq<Share>, tried: nat, lines: seq<string>, outcomes: nat -> Outcome)
    ensures
      var before := Import(database, [], 0, 0, tried);
      var read, r := Lines(f, before, lines, outcomes), Recovered(f, before, lines, outcomes);
      var parsed := Parsed(f, lines);
      && tried <= r.tried && r.successCount <= |parsed|
      && (r.database == database + parsed[..r.successCount] <==> RepliesKept(outcomes, tried, r.tried))
      && (r.successCount == |parsed| <==> read.shares == [] || outcomes(read.tried).Committed?)
      && r.failCount == Unparsable(f, lines) + Failures(outcomes, tried, r.tried)
  {
    hide Skipped, Trimmed, Lines, Parsed, RepliesKept, Failures;
    var before := Import(database, [], 0, 0, tried);
    LinesAccount(f, before, lines, outcomes);
    var read := Lines(f, before, lines, outcomes);
    if |read.shares| > 0 {
      FlushAccounts(read, before, Parsed(f, lines), Unparsable(f, lines), outcomes);
    }
  }

  /** When no transaction fails everything is imported, once. */
  lemma AllIsImported(f: Format, database: seq<Share>, tried: nat, lines: seq<string>, outcomes: nat -> Outcome)
    requires forall i | tried <= i :: outcomes(i).Committed?
    ensures
      var r := Recovered(f, Import(database, [], 0, 0, tried), lines, outcomes);
      r.database == database + Parsed(f, lines) && r.successCount == |Parsed(f, lines)| && r.failCount == Unparsable(f, lines)
  {
    hide Lines, Recovered, Parsed;
    ImportedIsPrefix(f, database, tried, lines, outcomes);
    var before := Import(database, [], 0, 0, tried);
    LinesAccount(f, before, lines, outcomes);
    var r := Recovered(f, before, lines, outcomes);
    NoFailures(outcomes, tried, r.tried);
    assert Parsed(f, lines)[..|Parsed(f, lines)|] == Parsed(f, lines);
  }

  lemma {:induction false} NoFailures(outcomes: nat -> Outcome, from: nat, until: nat)
    requires from <= until && forall i | from <= i < until :: outcomes(i).Committed?
    ensures Failures(outcomes, from, until) == 0
    decreases until
  {
    if from < until { NoFailures(outcomes, from, until - 1); }
  }

  /** The file up to a line, when the first transaction's reply is lost: from the hundredth
      share on the buffer only grows, for its size is not a hundred any more. */
  lemma {:induction false} BufferGrows(f: Format, database: seq<Share>, tried: nat, lines: seq<string>, outcomes: nat -> Outcome)
    requires Unparsable(f, lines) == 0 && outcomes(tried).ReplyLost?
    ensures
      var parsed := Parsed(f, lines);
      Lines(f, Import(database, [], 0, 0, tried), lines, outcomes)
      == if |parsed| < BUFFER_SIZE then Import(database, parsed, 0, 0, tried)
         else Import(database + parsed[..BUFFER_SIZE], parsed, 0, 1, tried + 1)
    decreases |lines|
  {
    hide Skipped, Trimmed;
    if lines != [] {
      var init, line := lines[..|lines| - 1], lines[|lines| - 1];
      BufferGrows(f, database, tried, init, outcomes);
      var before := Parsed(f, init);
      if Skipped(f, line) {
        assert before + [] == before;
      } else {
        var parsed := before + [f.parse(Trimmed(f, line)).value];
        if |before| == BUFFER_SIZE - 1 {
          assert parsed[..BUFFER_SIZE] == parsed;
        } else if |before| >= BUFFER_SIZE {
          assert parsed[..BUFFER_SIZE] == before[..BUFFER_SIZE];
        }
      }
    }
  }

  /** A lost reply imports shares twice: in any file of a hundred shares or more, all of
      whose lines can be read, when the first commit's reply is lost and the next one's is
      not, the first hundred are in the database twice, and the count does not show it. */
  lemma LostReplyImportsTwice(f: Format, database: seq<Share>, tried: nat, lines: seq<string>, outcomes: nat -> Outcome)
    requires Unparsable(f, lines) == 0 && |Parsed(f, lines)| >= 100
    requires outcomes(tried).ReplyLost? && outcomes(tried + 1).Committed?
    ensures
      var r, parsed := Recovered(f, Import(database, [], 0, 0, tried), lines, outcomes), Parsed(f, lines);
      && r.database == database + parsed[..100] + parsed
      && r.successCount == |parsed| && r.failCount == 1 && r.tried == tried + 2
  {
    hide Lines, Parsed, Unparsable;
    BufferGrows(f, database, tried, lines, outcomes);
  }
}
