/** Cancellation tokens. */
module Cancellation {

  /** A cancellation token: looked at `looks` more times it is found live, and from
      then on cancelled. Every cancellation schedule is one such number. */
  class CancellationToken {
    var looks: nat

    constructor (looks: nat)
      ensures this.looks == looks
    {
      this.looks := looks;
    }

    method IsCancellationRequested() returns (cancelled: bool)
      modifies this
      ensures cancelled <==> old(looks) == 0
      ensures looks == if old(looks) == 0 then 0 else old(looks) - 1
    {
      cancelled := looks == 0;
      if !cancelled { looks := looks - 1; }
    }
  }
}
