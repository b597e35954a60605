/** ExtraNonceProviderBase: an instance id in the high four bits, a counter below it. */
module ExtraNonce {
  import opened Checksums
  import opened Contracts

  const ID_BITS := 4

  type Width = n: int | 1 <= n <= 8 witness 4

  // ---------- Numbers as hex digits ----------

  function HexDigit(d: int): (c: char)
    requires 0 <= d < 16
  {
    "0123456789abcdef"[d]
  }

  lemma HexDigitInjective(d: int, e: int)
    requires 0 <= d < 16 && 0 <= e < 16
    ensures HexDigit(d) == HexDigit(e) <==> d == e
  {
    var s := "0123456789abcdef";
    assert forall i, j | 0 <= i < j < 16 :: s[i] < s[j];
  }

  /** ToString("x<width>") of a number that fits: exactly `width` lower-case digits, and
      as many as it takes of one that does not. */
  function Hex(n: nat, width: nat): (s: string)
    ensures |s| >= width
    decreases n + width, n
  {
    if n == 0 && width == 0 then ""
    else Hex(n / 16, if width > 0 then width - 1 else 0) + [HexDigit(n % 16)]
  }

  function Pow16(k: nat): (r: nat)
    ensures r >= 1
  {
    if k == 0 then 1 else 16 * Pow16(k - 1)
  }

  lemma {:induction false} HexFits(n: nat, width: nat)
    requires n < Pow16(width)
    ensures |Hex(n, width)| == width
    decreases width
  {
    if width > 0 { HexFits(n / 16, width - 1); }
  }

  lemma {:induction false} HexInjective(m: nat, n: nat, width: nat)
    requires m < Pow16(width) && n < Pow16(width)
    ensures Hex(m, width) == Hex(n, width) <==> m == n
    decreases width
  {
    if width > 0 && Hex(m, width) == Hex(n, width) {
      var a, b := Hex(m, width), Hex(n, width);
      HexDigitInjective(m % 16, n % 16);
      assert a[|a| - 1] == HexDigit(m % 16) && b[|b| - 1] == HexDigit(n % 16);
      assert a[..|a| - 1] == Hex(m / 16, width - 1) && b[..|b| - 1] == Hex(n / 16, width - 1);
      HexInjective(m / 16, n / 16, width - 1);
    }
  }

  // ---------- Bits ----------

  /** The bitwise or of two numbers. */
  function Or(a: nat, b: nat): (r: nat)
    decreases a + b
  {
    if a == 0 then b else if b == 0 then a
    else 2 * Or(a / 2, b / 2) + if a % 2 == 1 || b % 2 == 1 then 1 else 0
  }

  /** With nothing in common the bits are put together. */
  lemma {:induction false} OrPacks(id: nat, shift: nat, counter: nat)
    requires counter < Pow2(shift)
    ensures Or(id * Pow2(shift), counter) == id * Pow2(shift) + counter
    decreases shift
  {
    if shift > 0 && id > 0 && counter > 0 {
      var p := Pow2(shift - 1);
      assert id * Pow2(shift) == 2 * (id * p);
      Halves(id * p, counter);
      OrPacks(id, shift - 1, counter / 2);
      assert id * p > 0;
    }
  }

  lemma Halves(x: nat, y: nat)
    ensures (2 * x) / 2 == x && (2 * x) % 2 == 0 && y == 2 * (y / 2) + y % 2
  {
  }

  // ---------- The provider ----------

  function IdShift(bytes: Width): nat {
    bytes * 8 - ID_BITS
  }

  function NonceMax(bytes: Width): nat {
    Pow2(IdShift(bytes)) - 1
  }

  /** The nonce an instance gives out when its counter stands at c. */
  function Nonce(bytes: Width, id: int, c: nat): string
    requires 0 <= id < 16
  {
    Hex(id * Pow2(IdShift(bytes)) + c, 2 * bytes)
  }

  /** Count up, and roll over to zero behind the maximum. */
  function Advance(bytes: Width, counter: nat): nat {
    if counter + 1 > NonceMax(bytes) then 0 else counter + 1
  }

  /** The counter after k more calls. */
  function After(bytes: Width, counter: nat, k: nat): nat {
    if k == 0 then counter else Advance(bytes, After(bytes, counter, k - 1))
  }

  class ExtraNonceProviderBase {
    const extranonceBytes: Width
    const idShift: nat
    const nonceMax: nat
    const id: int
    var counter: nat

    ghost predicate Valid()
      reads this
    {
      && idShift == IdShift(extranonceBytes) && nonceMax == NonceMax(extranonceBytes)
      && 0 <= id < 16 && counter <= nonceMax
    }

    constructor (extranonceBytes: Width, id: int)
      requires 0 <= id < 256
      ensures Valid() && this.extranonceBytes == extranonceBytes && this.id == id % 16 && counter == 0
    {
      this.extranonceBytes := extranonceBytes;
      this.idShift := IdShift(extranonceBytes);
      this.nonceMax := NonceMax(extranonceBytes);
      this.id := id % 16;
      this.counter := 0;
    }

    /** A given id that needs more than four bits is refused. Without one, a random byte
        other than zero is cut to four bits, which may well leave zero. */
    static method Create(extranonceBytes: Width, instanceId: Option<byte>, random: byte)
      returns (r: Option<ExtraNonceProviderBase>)
      ensures r.None? <==> instanceId.Some? && instanceId.value > 15
      ensures r.Some? ==> fresh(r.value) && r.value.Valid() && r.value.counter == 0
      ensures r.Some? ==> r.value.extranonceBytes == extranonceBytes
      ensures r.Some? ==> r.value.id == match instanceId case Some(v) => v case None => random % 16
    {
      var id := random;
      if instanceId.Some? {
        id := instanceId.value;
        if id > Pow2(ID_BITS) - 1 {
          return None;
        }
      }
      var p := new ExtraNonceProviderBase(extranonceBytes, id);
      r := Some(p);
    }

    method Next() returns (r: string)
      requires Valid()
      modifies `counter
      ensures Valid()
      ensures counter == Advance(extranonceBytes, old(counter))
      ensures r == Nonce(extranonceBytes, id, counter)
    {
      hide Hex, Pow2, Or;
      counter := counter + 1;
      if counter > nonceMax {
        counter := 0;
      }
      var value := Or(id * Pow2(idShift), counter);
      OrPacks(id, idShift, counter);
      r := Hex(value, 2 * extranonceBytes);
    }
  }

  // ---------- What the nonces promise ----------

  /** How many counters there are. */
  function Cycle(bytes: Width): (n: nat)
    ensures n >= 1
  {
    NonceMax(bytes) + 1
  }

  /** q rounds of n calls. */
  function Calls(q: nat, n: nat): nat {
    if q == 0 then 0 else Calls(q - 1, n) + n
  }

  lemma {:induction false} CallsAdd(q: nat, p: nat, n: nat)
    ensures Calls(q + p, n) == Calls(q, n) + Calls(p, n)
    decreases p
  {
    if p > 0 { CallsAdd(q, p - 1, n); }
  }

  /** Quotient and remainder are determined. */
  lemma {:induction false} CallsTell(q: nat, a: nat, r: nat, b: nat, n: nat)
    requires a < n && b < n && Calls(q, n) + a <= Calls(r, n) + b
    ensures q <= r && (Calls(q, n) + a == Calls(r, n) + b ==> q == r && a == b)
    decreases r
  {
    if q > 0 && r > 0 { CallsTell(q - 1, a, r - 1, b, n); }
  }

  /** The counter is the number of calls less whole rounds. */
  lemma {:induction false} Rounds(bytes: Width, counter: nat, k: nat) returns (q: nat)
    requires counter <= NonceMax(bytes)
    ensures After(bytes, counter, k) + Calls(q, Cycle(bytes)) == counter + k
    ensures After(bytes, counter, k) <= NonceMax(bytes)
    decreases k
  {
    hide Pow2;
    if k == 0 {
      q := 0;
    } else {
      q := Rounds(bytes, counter, k - 1);
      if After(bytes, counter, k - 1) == NonceMax(bytes) { q := q + 1; }
    }
  }

  lemma {:induction false} Pow16IsPow2(k: nat)
    ensures Pow16(k) == Pow2(4 * k)
  {
    if k > 0 {
      Pow16IsPow2(k - 1);
      assert Pow2(4 * k) == 2 * Pow2(4 * k - 1) == 4 * Pow2(4 * k - 2);
      assert Pow2(4 * k - 2) == 2 * Pow2(4 * k - 3) == 4 * Pow2(4 * (k - 1));
    }
  }

  /** Id and counter together fit the width. */
  lemma ValueFits(bytes: Width, id: int, c: nat)
    requires 0 <= id < 16 && c <= NonceMax(bytes)
    ensures id * Pow2(IdShift(bytes)) + c < Pow16(2 * bytes)
  {
    hide Pow16, Pow2;
    var p := Pow2(IdShift(bytes));
    Pow16IsPow2(2 * bytes);
    TopBits(IdShift(bytes));
    AtMost15(id, p);
  }

  lemma AtMost15(id: nat, p: nat)
    requires id <= 15
    ensures id * p <= 15 * p
  {
  }

  lemma TopBits(k: nat)
    ensures Pow2(k + 4) == 16 * Pow2(k)
  {
    assert Pow2(k + 4) == 2 * Pow2(k + 3) == 4 * Pow2(k + 2);
    assert Pow2(k + 2) == 2 * Pow2(k + 1) == 4 * Pow2(k);
  }

  /** Every nonce has two digits a byte. */
  lemma NonceLength(bytes: Width, id: int, c: nat)
    requires 0 <= id < 16 && c <= NonceMax(bytes)
    ensures |Nonce(bytes, id, c)| == 2 * bytes
  {
    hide Hex, Pow2, Pow16;
    ValueFits(bytes, id, c);
    HexFits(id * Pow2(IdShift(bytes)) + c, 2 * bytes);
  }

  /** The counter has all digits but the first. */
  lemma RangeIs(bytes: Width)
    ensures NonceMax(bytes) + 1 == Pow16(2 * bytes - 1)
  {
    hide Pow2, Pow16;
    Pow16IsPow2(2 * bytes - 1);
  }

  /** A number without its last k hexadecimal digits. */
  function WithoutHex(n: nat, k: nat): nat {
    if k == 0 then n else WithoutHex(n / 16, k - 1)
  }

  lemma {:induction false} HexIs(n: nat, width: nat, k: nat)
    requires n < Pow16(width) && k < width
    ensures |Hex(n, width)| == width && Hex(n, width)[width - 1 - k] == "0123456789abcdef"[WithoutHex(n, k) % 16]
    decreases width
  {
    HexFits(n, width);
    HexFits(n / 16, width - 1);
    if k > 0 {
      HexIs(n / 16, width - 1, k - 1);
      assert Hex(n, width)[width - 1 - k] == Hex(n / 16, width - 1)[width - 1 - k];
    }
  }

  lemma {:induction false} HexSplits(d: nat, c: nat, width: nat)
    requires d < 16 && c < Pow16(width)
    ensures Hex(d * Pow16(width) + c, width + 1) == ["0123456789abcdef"[d]] + Hex(c, width)
    decreases width
  {
    hide Hex, Pow16;
    PowerOf16(width);
    if width == 0 {
      HexStep(0, d, 0);
      HexNothing();
      assert d * 1 + c == 16 * 0 + d;
    } else {
      var p, high, low := Pow16(width - 1), c / 16, c % 16;
      Sixteen(d, p, high, low);
      HexSplits(d, high, width - 1);
      HexStep(d * p + high, low, width);
      HexStep(high, low, width - 1);
    }
  }

  lemma PowerOf16(k: nat)
    ensures Pow16(k) == if k == 0 then 1 else 16 * Pow16(k - 1)
  {
  }

  lemma HexNothing()
    ensures Hex(0, 0) == ""
  {
  }

  lemma HexStep(m: nat, r: nat, width: nat)
    requires r < 16
    ensures Hex(16 * m + r, width + 1) == Hex(m, width) + ["0123456789abcdef"[r]]
  {
    assert (16 * m + r) / 16 == m && (16 * m + r) % 16 == r;
  }

  lemma Sixteen(d: nat, p: nat, high: nat, low: nat)
    ensures d * (16 * p) + (16 * high + low) == 16 * (d * p + high) + low
  {
  }

  /** The first digit of every nonce is the id, the others are the counter. */
  lemma NonceIs(bytes: Width, id: int, c: nat)
    requires 0 <= id < 16 && c <= NonceMax(bytes)
    ensures Nonce(bytes, id, c) == ["0123456789abcdef"[id]] + Hex(c, 2 * bytes - 1)
    ensures Nonce(bytes, id, c) != "" && Nonce(bytes, id, c)[0] == "0123456789abcdef"[id]
  {
    hide Pow2, Pow16, Hex;
    RangeIs(bytes);
    HexSplits(id, c, 2 * bytes - 1);
  }

  /** Two nonces of one width are equal exactly when id and counter are. */
  lemma NonceInjective(bytes: Width, id1: int, c1: nat, id2: int, c2: nat)
    requires 0 <= id1 < 16 && 0 <= id2 < 16 && c1 <= NonceMax(bytes) && c2 <= NonceMax(bytes)
    ensures Nonce(bytes, id1, c1) == Nonce(bytes, id2, c2) <==> id1 == id2 && c1 == c2
  {
    hide Hex, Pow2, Pow16;
    ValueFits(bytes, id1, c1);
    ValueFits(bytes, id2, c2);
    var p := Pow2(IdShift(bytes));
    HexInjective(id1 * p + c1, id2 * p + c2, 2 * bytes);
    Packed(id1, c1, id2, c2, p);
  }

  lemma Packed(i: nat, c: nat, j: nat, d: nat, p: nat)
    requires c < p && d < p
    ensures i * p + c == j * p + d <==> i == j && c == d
  {
    if i < j { assert (i + 1) * p <= j * p; }
    if j < i { assert (j + 1) * p <= i * p; }
  }

  /** Of two calls on one provider, the results are equal exactly when a whole number of
      rounds lies between them. */
  lemma NoncesRepeatAfterRounds(bytes: Width, id: int, counter: nat, j: nat, k: nat)
    requires 0 <= id < 16 && counter <= NonceMax(bytes) && j <= k
    ensures Nonce(bytes, id, After(bytes, counter, j)) == Nonce(bytes, id, After(bytes, counter, k))
       <==> exists q: nat :: k - j == Calls(q, Cycle(bytes))
  {
    hide Nonce, Pow2, After, Calls;
    var n := Cycle(bytes);
    var a, b := After(bytes, counter, j), After(bytes, counter, k);
    var q := Rounds(bytes, counter, j);
    var r := Rounds(bytes, counter, k);
    NonceInjective(bytes, id, a, id, b);
    if a == b {
      CallsTell(q, a, r, a, n);
      CallsAdd(q, r - q, n);
      assert k - j == Calls(r - q, n);
    }
    if p: nat :| k - j == Calls(p, n) {
      CallsAdd(q, p, n);
      CallsTell(q + p, a, r, b, n);
    }
  }

  /** So any nonceMax + 1 calls in a row give different nonces, across the rollover too. */
  lemma ConsecutiveNoncesDiffer(bytes: Width, id: int, counter: nat, j: nat, k: nat)
    requires 0 <= id < 16 && counter <= NonceMax(bytes) && j < k <= j + NonceMax(bytes)
    ensures Nonce(bytes, id, After(bytes, counter, j)) != Nonce(bytes, id, After(bytes, counter, k))
  {
    hide Nonce, Pow2, After;
    NoncesRepeatAfterRounds(bytes, id, counter, j, k);
    forall q: nat ensures k - j != Calls(q, Cycle(bytes)) {
      if q > 0 { assert Calls(q, Cycle(bytes)) >= Cycle(bytes); }
    }
  }
}
