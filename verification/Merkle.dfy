/** MerkleTree: the branch handed to miners, folded over a coinbase hash, is the Merkle
    root of the whole block ("Merkle Trees" of the Bitcoin protocol specification). */
module Merkle {
  import opened Checksums

  /** SHA-256, of which nothing is used but that it is a function. */
  type Digest = seq<byte> -> seq<byte>

  function DoubleDigest(sha: Digest, input: seq<byte>): seq<byte> {
    sha(sha(input))
  }

  function MerkleJoin(sha: Digest, hash1: seq<byte>, hash2: seq<byte>): seq<byte> {
    DoubleDigest(sha, hash1 + hash2)
  }

  // ---------- The specification ----------

  /** A level of odd length repeats its last node. */
  function Evened<T>(level: seq<T>): (r: seq<T>)
    ensures |r| % 2 == 0 && |level| <= |r| <= |level| + 1
  {
    if |level| % 2 == 1 then level + [level[|level| - 1]] else level
  }

  /** The nodes above a level of even length. */
  function Joined(sha: Digest, level: seq<seq<byte>>): (r: seq<seq<byte>>)
    requires |level| % 2 == 0
    ensures |r| == |level| / 2
    ensures forall i | 0 <= i < |r| :: r[i] == sha(sha(level[2 * i] + level[2 * i + 1]))
  {
    if level == [] then [] else [MerkleJoin(sha, level[0], level[1])] + Joined(sha, level[2..])
  }

  function MerkleRoot(sha: Digest, level: seq<seq<byte>>): seq<byte>
    requires level != []
    decreases |level|
  {
    if |level| == 1 then level[0] else MerkleRoot(sha, Joined(sha, Evened(level)))
  }

  lemma PairRoot(sha: Digest, a: seq<byte>, b: seq<byte>)
    ensures MerkleRoot(sha, [a, b]) == sha(sha(a + b))
  {
    assert Evened([a, b]) == [a, b];
    assert Joined(sha, [a, b]) == [sha(sha(a + b))];
  }

  /** Trees of up to three leaves, by the digest alone: an odd last node is joined with
      itself. */
  lemma SmallRoots(sha: Digest, a: seq<byte>, b: seq<byte>, c: seq<byte>)
    ensures MerkleRoot(sha, [a]) == a
    ensures MerkleRoot(sha, [a, b]) == sha(sha(a + b))
    ensures MerkleRoot(sha, [a, b, c]) == sha(sha(sha(sha(a + b)) + sha(sha(c + c))))
  {
    PairRoot(sha, a, b);
    var level := Evened([a, b, c]);
    assert level == [a, b, c, c];
    var above := Joined(sha, level);
    assert above == [sha(sha(a + b)), sha(sha(c + c))];
    PairRoot(sha, above[0], above[1]);
  }

  // ---------- The branch ----------

  /** The levels above, with the place of the first node left open: a null in front, and
      the list without it behind. */
  function Above(sha: Digest, hashes: seq<seq<byte>>): (r: seq<seq<byte>>)
    requires hashes != []
    ensures |r| == |hashes| / 2
  {
    Joined(sha, Evened([hashes[0]] + hashes)[2..])
  }

  function Branch(sha: Digest, hashes: seq<seq<byte>>): seq<seq<byte>>
    decreases |hashes|
  {
    if hashes == [] then [] else [hashes[0]] + Branch(sha, Above(sha, hashes))
  }

  function Folded(sha: Digest, first: seq<byte>, steps: seq<seq<byte>>): seq<byte>
    decreases |steps|
  {
    if steps == [] then first else Folded(sha, MerkleJoin(sha, first, steps[0]), steps[1..])
  }

  lemma FoldedSnoc(sha: Digest, first: seq<byte>, steps: seq<seq<byte>>, step: seq<byte>)
    ensures Folded(sha, first, steps + [step]) == MerkleJoin(sha, Folded(sha, first, steps), step)
    decreases |steps|
  {
    if steps != [] {
      assert (steps + [step])[1..] == steps[1..] + [step];
      FoldedSnoc(sha, MerkleJoin(sha, first, steps[0]), steps[1..], step);
    }
  }

  /** Stands for the null that holds the place of the coinbase; it is never read. */
  const NULL: seq<byte> := []

  lemma IsAbove(sha: Digest, hashes: seq<seq<byte>>, L: seq<seq<byte>>, Ld: seq<seq<byte>>)
    requires hashes != [] && L == Evened([NULL] + hashes) && |Ld| == |L| / 2 - 1
    requires forall j | 0 <= j < |Ld| :: Ld[j] == MerkleJoin(sha, L[2 * j + 2], L[2 * j + 3])
    ensures Ld == Above(sha, hashes)
  {
    var tail := Evened([hashes[0]] + hashes)[2..];
    assert tail == L[2..];
    assert forall j | 0 <= j < |Ld| :: tail[2 * j] == L[2 * j + 2] && tail[2 * j + 1] == L[2 * j + 3];
  }

  lemma BranchStep(sha: Digest, level: seq<seq<byte>>, steps: seq<seq<byte>>, before: seq<seq<byte>>)
    requires level != [] && steps == before + [level[0]]
    ensures steps + Branch(sha, Above(sha, level)) == before + Branch(sha, level)
  {
    hide Above;
    var rest := Branch(sha, Above(sha, level));
    assert Branch(sha, level) == [level[0]] + rest;
    assert (before + [level[0]]) + rest == before + ([level[0]] + rest);
  }

  lemma BranchEnds(sha: Digest)
    ensures Branch(sha, []) == []
  {
  }

  class MerkleTree {
    const sha: Digest
    const steps: seq<seq<byte>>
    ghost const hashes: seq<seq<byte>>

    ghost predicate Valid() {
      steps == Branch(sha, hashes)
    }

    constructor (sha: Digest, hashList: seq<seq<byte>>)
      ensures Valid() && this.sha == sha && hashes == hashList
    {
      this.sha, this.hashes := sha, hashList;
      var s := CalculateSteps(sha, hashList);
      this.steps := s;
    }

    static method CalculateSteps(sha: Digest, hashList: seq<seq<byte>>) returns (steps: seq<seq<byte>>)
      ensures steps == Branch(sha, hashList)
    {
      hide MerkleJoin, Above, Joined, Branch;
      BranchEnds(sha);
      steps := [];
      var L: seq<seq<byte>> := [NULL] + hashList;
      var startL := 2;
      var Ll := |L|;
      while Ll != 1
        invariant 1 <= Ll == |L| && L[0] == NULL
        invariant steps + Branch(sha, L[1..]) == Branch(sha, hashList)
        decreases Ll
      {
        ghost var before, level := steps, L[1..];
        assert L == [NULL] + level;
        steps := steps + [L[1]];
        if Ll % 2 == 1 {
          L := L + [L[|L| - 1]];
        }
        assert L == Evened([NULL] + level);
        var Ld: seq<seq<byte>> := [];
        var i := startL;
        while i < Ll
          invariant i == 2 * |Ld| + 2 && i <= |L|
          invariant forall j | 0 <= j < |Ld| :: Ld[j] == MerkleJoin(sha, L[2 * j + 2], L[2 * j + 3])
        {
          Ld := Ld + [MerkleJoin(sha, L[i], L[i + 1])];
          i := i + 2;
        }
        IsAbove(sha, level, L, Ld);
        L := [NULL] + Ld;
        assert L[1..] == Ld;
        BranchStep(sha, level, steps, before);
        Ll := |L|;
      }
    }

    /** The coinbase joined with the steps, in order: the root of the whole block. */
    method WithFirst(first: seq<byte>) returns (r: seq<byte>)
      requires Valid()
      ensures r == MerkleRoot(sha, [first] + hashes)
      ensures hashes == [] ==> r == first
      ensures |hashes| == 1 ==> r == sha(sha(first + hashes[0]))
    {
      if |hashes| == 1 {
        SmallRoots(sha, first, hashes[0], []);
        assert [first] + hashes == [first, hashes[0]];
      }
      if hashes == [] {
        SmallRoots(sha, first, [], []);
        assert [first] + hashes == [first];
      }
      hide MerkleRoot;
      r := first;
      assert steps[..0] == [];
      for i := 0 to |steps|
        invariant r == Folded(sha, first, steps[..i])
      {
        FoldedSnoc(sha, first, steps[..i], steps[i]);
        r := DoubleDigest(sha, r + steps[i]);
        assert steps[..i + 1] == steps[..i] + [steps[i]];
      }
      assert steps[..|steps|] == steps;
      BranchGivesRoot(sha, first, hashes);
    }
  }

  // ---------- They agree ----------

  /** For every coinbase and every list of transaction hashes. */
  lemma {:induction false} BranchGivesRoot(sha: Digest, first: seq<byte>, hashes: seq<seq<byte>>)
    ensures Folded(sha, first, Branch(sha, hashes)) == MerkleRoot(sha, [first] + hashes)
    decreases |hashes|
  {
    if hashes != [] {
      var level := [first] + hashes;
      var next, above := MerkleJoin(sha, first, hashes[0]), Above(sha, hashes);
      AboveIsRest(sha, first, hashes);
      BranchGivesRoot(sha, next, above);
      assert Branch(sha, hashes)[1..] == Branch(sha, above);
    }
  }

  /** The level above a level is its first node and what the branch goes on with. */
  lemma AboveIsRest(sha: Digest, first: seq<byte>, hashes: seq<seq<byte>>)
    requires hashes != []
    ensures Joined(sha, Evened([first] + hashes)) == [MerkleJoin(sha, first, hashes[0])] + Above(sha, hashes)
  {
    var a, b := Evened([first] + hashes), Evened([hashes[0]] + hashes);
    assert a[2..] == b[2..];
    assert a[0] == first && a[1] == hashes[0];
  }

  /** The least number of halvings, rounding up, that bring n down to one. */
  function Halvings(n: nat): nat
    requires n >= 1
  {
    if n == 1 then 0 else 1 + Halvings((n + 1) / 2)
  }

  /** That number is the logarithm to base two, rounded up. */
  lemma {:induction false} HalvingsIsLogarithm(n: nat)
    requires n >= 1
    ensures n <= Pow2(Halvings(n)) && (n > 1 ==> Pow2(Halvings(n) - 1) < n)
    decreases n
  {
    if n > 1 {
      HalvingsIsLogarithm((n + 1) / 2);
      if (n + 1) / 2 > 1 {
        var k := Halvings((n + 1) / 2);
        assert Pow2(k) == 2 * Pow2(k - 1);
      }
    }
  }

  /** There are as many steps as the tree over the coinbase and the list has levels. */
  lemma {:induction false} BranchLength(sha: Digest, hashes: seq<seq<byte>>)
    ensures
      var k := |Branch(sha, hashes)|;
      |hashes| + 1 <= Pow2(k) && (k > 0 ==> Pow2(k - 1) < |hashes| + 1)
  {
    BranchHalvings(sha, hashes);
    HalvingsIsLogarithm(|hashes| + 1);
  }

  lemma {:induction false} BranchHalvings(sha: Digest, hashes: seq<seq<byte>>)
    ensures |Branch(sha, hashes)| == Halvings(|hashes| + 1)
    decreases |hashes|
  {
    if hashes != [] {
      BranchHalvings(sha, Above(sha, hashes));
      assert (|hashes| + 2) / 2 == |hashes| / 2 + 1;
    }
  }
}
