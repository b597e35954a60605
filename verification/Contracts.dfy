/** The values that travel through the pipeline (HashStormCore.Contracts). */
module Contracts {

  datatype Option<+T> = None | Some(value: T)

  /** How a database transaction ends: committed; not, and the caller is told; committed,
      but the caller is told it failed. */
  datatype Outcome = Committed | RolledBack | ReplyLost

  datatype EventType =
    | ShareAccepted
    | ShareRejected
    | ShareStale
    | BlockCandidate
    | BlockAccepted
    | BlockRejected
    | NewTemplate
    | PoolOnline
    | PoolOffline

  /** A share event. `created` counts milliseconds from the Unix epoch, so the
      default .NET date (year 1) is a negative number. */
  datatype ShareEvent = ShareEvent(
    eventId: string,
    eventType: EventType,
    poolId: string,
    miner: string,
    worker: string,
    source: string,
    created: int,
    blockHeight: Option<int>,
    difficulty: real,
    networkDifficulty: real,
    shareMultiplier: real,
    blockHash: string,
    ipAddress: string,
    userAgent: string,
    transactionConfirmationData: string,
    blockReward: real,
    blockType: string)

  /** The numbers from lo on, below hi. */
  function Range(lo: nat, hi: nat): (r: set<nat>)
    ensures forall k: nat :: k in r <==> lo <= k < hi
    decreases hi - lo
  {
    if lo >= hi then {} else {lo} + Range(lo + 1, hi)
  }

  /** What string.IsNullOrWhiteSpace answers; the white space of .NET is reduced
      to the ASCII blanks. */
  predicate IsBlank(s: string) {
    forall c | c in s :: c in " \t\r\n"
  }

  /** A text is blank unless it has another character; so the empty text is. */
  lemma BlankIs(s: string)
    ensures IsBlank("")
    ensures IsBlank(s) <==> !exists i :: 0 <= i < |s| && s[i] != ' ' && s[i] != '\t' && s[i] != '\r' && s[i] != '\n'
  {
    assert forall c :: c in " \t\r\n" <==> c == ' ' || c == '\t' || c == '\r' || c == '\n';
    assert forall i | 0 <= i < |s| :: s[i] in s;
  }
}
