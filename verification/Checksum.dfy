/** Bytes, little-endian words, and the FNV-1a checksum of a WAL record. */
module Checksums {

  type byte = x: int | 0 <= x < 256

  const WORD: int := 0x1_0000_0000
  type word = x: int | 0 <= x < 0x1_0000_0000

  // ---------- Little-endian integers ----------

  /** The n lowest bytes of x, lowest first. */
  function LE(x: nat, n: nat): (r: seq<byte>)
    ensures |r| == n
    decreases n
  {
    if n == 0 then [] else [x % 256] + LE(x / 256, n - 1)
  }

  function FromLE(b: seq<byte>): nat {
    if b == [] then 0 else b[0] + 256 * FromLE(b[1..])
  }

  function LE16(x: int): (r: seq<byte>)
    requires 0 <= x < 0x1_0000
    ensures |r| == 2
  {
    LE(x, 2)
  }

  function LE32(x: word): (r: seq<byte>)
    ensures |r| == 4
  {
    LE(x, 4)
  }

  function FromLE16(b: seq<byte>): (x: int)
    requires |b| == 2
    ensures 0 <= x < 0x1_0000
  {
    FromLEBound(b);
    FromLE(b)
  }

  function FromLE32(b: seq<byte>): (x: word)
    requires |b| == 4
  {
    FromLEBound(b);
    FromLE(b)
  }

  function Power256(n: nat): (r: nat)
    ensures r >= 1
  {
    if n == 0 then 1 else 256 * Power256(n - 1)
  }

  lemma {:induction false} FromLEBound(b: seq<byte>)
    ensures FromLE(b) < Power256(|b|)
    ensures |b| == 2 ==> FromLE(b) < 0x1_0000
    ensures |b| == 4 ==> FromLE(b) < 0x1_0000_0000
    decreases |b|
  {
    if b != [] { FromLEBound(b[1..]); }
    assert Power256(2) == 0x1_0000 && Power256(4) == 256 * (256 * Power256(2));
  }

  lemma {:induction false} LEInverse(x: nat, n: nat)
    requires x < Power256(n)
    ensures FromLE(LE(x, n)) == x
    decreases n
  {
    if n > 0 {
      LEInverse(x / 256, n - 1);
      assert LE(x, n)[1..] == LE(x / 256, n - 1);
    }
  }

  lemma {:induction false} FromLEInverse(b: seq<byte>)
    ensures LE(FromLE(b), |b|) == b
    decreases |b|
  {
    if b != [] {
      FromLEInverse(b[1..]);
      assert b == [b[0]] + b[1..];
    }
  }

  /** Both directions: the four bytes and the word determine each other. */
  lemma LE32RoundTrip(x: word, b: seq<byte>)
    requires |b| == 4
    ensures FromLE32(LE32(x)) == x
    ensures LE32(FromLE32(b)) == b
    ensures LE32(x) == b <==> x == FromLE32(b)
  {
    assert Power256(2) == 0x1_0000 && Power256(4) == 256 * (256 * Power256(2));
    LEInverse(x, 4);
    FromLEInverse(b);
  }

  lemma LE16RoundTrip(x: int, b: seq<byte>)
    requires 0 <= x < 0x1_0000 && |b| == 2
    ensures FromLE16(LE16(x)) == x
    ensures LE16(FromLE16(b)) == b
  {
    assert Power256(2) == 0x1_0000;
    LEInverse(x, 2);
    FromLEInverse(b);
  }

  /** Which byte stands where. */
  lemma LE32Is(x: word)
    ensures LE32(x) == [x % 256, x / 0x100 % 256, x / 0x1_0000 % 256, x / 0x100_0000]
  {
    var b := LE32(x);
    assert x / 256 / 256 == x / 0x1_0000 && x / 256 / 256 / 256 == x / 0x100_0000;
    assert LE(x, 4) == [x % 256] + LE(x / 256, 3);
    assert LE(x / 256, 3) == [x / 256 % 256] + LE(x / 256 / 256, 2);
    assert LE(x / 256 / 256, 2) == [x / 256 / 256 % 256] + LE(x / 256 / 256 / 256, 1);
    assert LE(x / 256 / 256 / 256, 1) == [x / 256 / 256 / 256 % 256] + LE(x / 256 / 256 / 256 / 256, 0);
  }

  /** Conversion of a 32-bit pattern to a C# int. */
  function ToInt32(x: word): (r: int)
    ensures -0x8000_0000 <= r < 0x8000_0000
    ensures r == x || r == x - 0x1_0000_0000
    ensures 0 <= x < 0x8000_0000 ==> r == x
  {
    if x < 0x8000_0000 then x else x - WORD
  }

  // ---------- Exclusive or ----------

  /** Bitwise exclusive or of two naturals. */
  function Xor(a: nat, b: nat): nat
    decreases a + b
  {
    if a == 0 && b == 0 then 0 else (a + b) % 2 + 2 * Xor(a / 2, b / 2)
  }

  /** The defining equation, by lowest bits and rests. */
  lemma XorBits(ah: nat, al: nat, bh: nat, bl: nat)
    requires al < 2 && bl < 2
    ensures Xor(2 * ah + al, 2 * bh + bl) == (if al == bl then 0 else 1) + 2 * Xor(ah, bh)
  {
    var a, b := 2 * ah + al, 2 * bh + bl;
    assert a / 2 == ah && b / 2 == bh;
    assert (a + b) % 2 == (al + bl) % 2;
  }

  /** x-oring twice with the same value gives the first value back. */
  lemma {:induction false} XorInvolution(a: nat, b: nat)
    ensures Xor(Xor(a, b), b) == a
    decreases a + b
  {
    if a != 0 || b != 0 {
      var ah, al, bh, bl := a / 2, a % 2, b / 2, b % 2;
      XorInvolution(ah, bh);
      XorBits(ah, al, bh, bl);
      XorBits(Xor(ah, bh), if al == bl then 0 else 1, bh, bl);
    }
  }

  lemma {:induction false} XorZero(a: nat)
    ensures Xor(a, 0) == a
    decreases a
  {
    if a != 0 { XorZero(a / 2); }
  }

  lemma {:induction false} XorCommutes(a: nat, b: nat)
    ensures Xor(a, b) == Xor(b, a)
    decreases a + b
  {
    if a != 0 || b != 0 { XorCommutes(a / 2, b / 2); }
  }

  function Pow2(k: nat): (r: nat)
    ensures r >= 1
  {
    if k == 0 then 1 else 2 * Pow2(k - 1)
  }

  lemma {:induction false} XorBound(a: nat, b: nat, k: nat)
    requires a < Pow2(k) && b < Pow2(k)
    ensures Xor(a, b) < Pow2(k)
    decreases k
  {
    if k > 0 && (a != 0 || b != 0) { XorBound(a / 2, b / 2, k - 1); }
  }

  lemma Pow2Of32()
    ensures Pow2(32) == WORD
  {
    assert Pow2(8) == 256 by { assert Pow2(4) == 16; }
    assert Pow2(16) == 0x1_0000 by { assert Pow2(12) == 4096; }
    assert Pow2(24) == 0x100_0000 by { assert Pow2(20) == 0x10_0000; }
    assert Pow2(28) == 0x1000_0000;
  }

  lemma XorWord(h: word, b: byte)
    ensures Xor(h, b) < WORD
  {
    Pow2Of32();
    XorBound(h, b, 32);
  }

  // ---------- FNV-1a ----------

  const OFFSET_BASIS: word := 2166136261
  const PRIME: word := 16777619
  const PRIME_INVERSE: word := 899433627

  /** One turn of the checksum loop: xor the byte in, multiply modulo 2^32. */
  function Step(h: word, b: byte): word {
    Xor(h, b) * PRIME % WORD
  }

  function Fold(h: word, payload: seq<byte>): word
    decreases |payload|
  {
    if payload == [] then h else Fold(Step(h, payload[0]), payload[1..])
  }

  function Fnv1a(payload: seq<byte>): word {
    Fold(OFFSET_BASIS, payload)
  }

  lemma {:induction false} FoldSnoc(h: word, p: seq<byte>, b: byte)
    ensures Fold(h, p + [b]) == Step(Fold(h, p), b)
    decreases |p|
  {
    hide Step;
    if p == [] {
      assert p + [b] == [b] && [b][1..] == [];
    } else {
      assert (p + [b])[1..] == p[1..] + [b];
      FoldSnoc(Step(h, p[0]), p[1..], b);
    }
  }

  /** The checksum byte by byte: x-or first, then the product. */
  lemma FnvIs(p: seq<byte>, b: byte)
    ensures Fnv1a([]) == 2166136261
    ensures Fnv1a(p + [b]) == Xor(Fnv1a(p), b) * 16777619 % 0x1_0000_0000
  {
    FoldSnoc(OFFSET_BASIS, p, b);
  }

  /** The published value for the text "a". */
  lemma FnvOfA()
    ensures Fnv1a([0x61]) == 0xE40C292C
  {
    hide Xor, Fnv1a;
    FnvIs([], 0x61);
    assert [] + [0x61] == [0x61];
    XorZero(16922939);
    XorBits(16922939, 1, 0, 1);
    XorBits(33845879, 0, 1, 1);
    XorBits(67691758, 0, 3, 0);
    XorBits(135383516, 0, 6, 0);
    XorBits(270767032, 1, 12, 0);
    XorBits(541534065, 0, 24, 0);
    XorBits(1083068130, 1, 48, 1);
  }

  method Checksum(payload: seq<byte>) returns (hash: word)
    ensures hash == Fnv1a(payload)
  {
    hash := OFFSET_BASIS;
    for i := 0 to |payload|
      invariant Fold(hash, payload[i..]) == Fnv1a(payload)
    {
      var b := payload[i];
      assert payload[i..][1..] == payload[i + 1..];
      hash := Xor(hash, b) * PRIME % WORD;
    }
  }

  /** Multiplication by the FNV prime is undone by its inverse modulo 2^32. */
  lemma MultiplyInverse(x: word)
    ensures (x * PRIME % WORD) * PRIME_INVERSE % WORD == x
  {
    var t := x * PRIME / WORD;
    assert PRIME * PRIME_INVERSE == 3513497 * WORD + 1;
    assert (x * PRIME % WORD) * PRIME_INVERSE == x + WORD * (3513497 * x - t * PRIME_INVERSE);
  }

  /** Each turn is a bijection of the state, for every byte. */
  lemma StepInjectiveInHash(h: word, g: word, b: byte)
    requires Step(h, b) == Step(g, b)
    ensures h == g
  {
    XorWord(h, b);
    XorWord(g, b);
    MultiplyInverse(Xor(h, b));
    MultiplyInverse(Xor(g, b));
    XorInvolution(h, b);
    XorInvolution(g, b);
  }

  /** From one state, different bytes lead to different states. */
  lemma StepInjectiveInByte(h: word, b: byte, c: byte)
    requires Step(h, b) == Step(h, c)
    ensures b == c
  {
    XorWord(h, b);
    XorWord(h, c);
    MultiplyInverse(Xor(h, b));
    MultiplyInverse(Xor(h, c));
    XorCommutes(h, b);
    XorCommutes(h, c);
    XorInvolution(b, h);
    XorInvolution(c, h);
  }

  /** Folding the same bytes never merges two states. */
  lemma {:induction false} FoldInjective(h: word, g: word, payload: seq<byte>)
    ensures Fold(h, payload) == Fold(g, payload) <==> h == g
    decreases |payload|
  {
    if payload != [] {
      FoldInjective(Step(h, payload[0]), Step(g, payload[0]), payload[1..]);
      if Step(h, payload[0]) == Step(g, payload[0]) {
        StepInjectiveInHash(h, g, payload[0]);
      }
    }
  }

  lemma {:induction false} SingleByteFold(h: word, payload: seq<byte>, i: nat, b: byte)
    requires i < |payload|
    ensures Fold(h, payload[i := b]) == Fold(h, payload) <==> b == payload[i]
    decreases i
  {
    if i == 0 {
      assert payload[0 := b][1..] == payload[1..];
      FoldInjective(Step(h, b), Step(h, payload[0]), payload[1..]);
      if Step(h, b) == Step(h, payload[0]) { StepInjectiveInByte(h, b, payload[0]); }
    } else {
      assert payload[i := b][1..] == payload[1..][i - 1 := b];
      SingleByteFold(Step(h, payload[0]), payload[1..], i - 1, b);
    }
  }

  /** The checksum changes exactly when the byte does: every corruption confined
      to one byte of a payload of any length is seen. */
  lemma SingleByteCorruptionDetected(payload: seq<byte>, i: nat, b: byte)
    requires i < |payload|
    ensures Fnv1a(payload[i := b]) == Fnv1a(payload) <==> b == payload[i]
  {
    SingleByteFold(OFFSET_BASIS, payload, i, b);
  }
}
