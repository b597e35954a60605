/** Segment file names: twenty decimal digits and ".wal", listed in ordinal order. */
module SegmentNames {

  const EXTENSION := ".wal"
  const NAME_DIGITS := 20
  const LONG_LIMIT: int := 0x8000_0000_0000_0000

  function Digit(d: int): (c: char)
    requires 0 <= d < 10
    ensures '0' <= c <= '9'
  {
    '0' + d as char
  }

  predicate AllDigits(s: string) {
    forall i | 0 <= i < |s| :: '0' <= s[i] <= '9'
  }

  /** The last `width` decimal digits of n, most significant first. */
  function Digits(n: nat, width: nat): (s: string)
    ensures |s| == width
    ensures AllDigits(s)
  {
    if width == 0 then [] else Digits(n / 10, width - 1) + [Digit(n % 10)]
  }

  /** `$"{index:D20}.wal"`; a long has at most 19 digits. */
  function SegmentName(index: nat): (s: string)
    ensures |s| == NAME_DIGITS + |EXTENSION|
  {
    Digits(index, NAME_DIGITS) + EXTENSION
  }

  /** string.Compare(a, b, StringComparison.Ordinal) < 0. */
  predicate OrdinalLess(a: string, b: string)
    decreases |a|
  {
    if b == [] then false
    else if a == [] then true
    else a[0] < b[0] || (a[0] == b[0] && OrdinalLess(a[1..], b[1..]))
  }

  /** The part of a file name before its last '.'. */
  function WithoutExtension(name: string): (r: string)
    decreases |name|
  {
    if '.' !in name then name
    else if name[|name| - 1] == '.' then name[..|name| - 1]
    else WithoutExtension(name[..|name| - 1])
  }

  function ParseDigits(s: string): (n: nat)
    requires AllDigits(s)
  {
    if s == [] then 0 else 10 * ParseDigits(s[..|s| - 1]) + (s[|s| - 1] - '0') as int
  }

  /** long.TryParse on the bare name, 1 when it fails. */
  function ParseSegmentIndex(name: string): (index: nat) {
    var bare := WithoutExtension(name);
    if bare != [] && AllDigits(bare) && ParseDigits(bare) < LONG_LIMIT
    then ParseDigits(bare)
    else 1
  }

  function Power10(k: nat): (r: nat)
    ensures r >= 1
  {
    if k == 0 then 1 else 10 * Power10(k - 1)
  }

  lemma LongFits()
    ensures LONG_LIMIT < Power10(NAME_DIGITS)
  {
    assert Power10(4) == 10_000;
    assert Power10(8) == 100_000_000;
    assert Power10(12) == 1_000_000_000_000;
    assert Power10(16) == 10_000_000_000_000_000;
  }

  lemma {:induction false} ParseInvertsDigits(n: nat, width: nat)
    requires n < Power10(width)
    ensures ParseDigits(Digits(n, width)) == n
    decreases width
  {
    if width > 0 {
      ParseInvertsDigits(n / 10, width - 1);
      var s := Digits(n, width);
      assert s[..|s| - 1] == Digits(n / 10, width - 1);
    }
  }

  lemma StripExtension(bare: string)
    requires '.' !in bare
    ensures WithoutExtension(bare + EXTENSION) == bare
  {
    var name := bare + EXTENSION;
    assert name[|bare|] == '.';
    assert name[..|name| - 1] == bare + ".wa" && (bare + ".wa")[|bare|] == '.';
    assert (bare + ".wa")[..|bare| + 2] == bare + ".w" && (bare + ".w")[|bare|] == '.';
    assert (bare + ".w")[..|bare| + 1] == bare + "." && (bare + ".")[|bare|] == '.';
    assert WithoutExtension(bare + ".") == bare;
    assert WithoutExtension(bare + ".w") == bare;
    assert WithoutExtension(bare + ".wa") == bare;
  }

  /** A number without its last k digits. */
  function Without(n: nat, k: nat): nat {
    if k == 0 then n else Without(n / 10, k - 1)
  }

  lemma {:induction false} DigitAt(n: nat, width: nat, k: nat)
    requires k < width
    ensures Digits(n, width)[width - 1 - k] == "0123456789"[Without(n, k) % 10]
    decreases width
  {
    var d := "0123456789";
    assert forall i: int | 0 <= i < 10 :: d[i] == '0' + i as char;
    if k > 0 {
      DigitAt(n / 10, width - 1, k - 1);
      assert Digits(n, width)[width - 1 - k] == Digits(n / 10, width - 1)[width - 1 - k];
    }
  }

  /** A name is twenty decimal digits, the last one last, and the extension. */
  lemma NameIs(index: nat, k: nat)
    requires k < 20
    ensures |SegmentName(index)| == 24 && SegmentName(index)[20..] == ".wal"
    ensures SegmentName(index)[19 - k] == "0123456789"[Without(index, k) % 10]
  {
    DigitAt(index, 20, k);
  }

  /** A restarted outbox reads back the index it wrote into the name. */
  lemma ParseInvertsName(index: nat)
    requires index < LONG_LIMIT
    ensures ParseSegmentIndex(SegmentName(index)) == index
  {
    LongFits();
    var bare := Digits(index, NAME_DIGITS);
    assert '.' !in bare;
    StripExtension(bare);
    ParseInvertsDigits(index, NAME_DIGITS);
  }

  lemma {:induction false} OrdinalAppend(a: string, b: string, s: string, t: string)
    requires |a| == |b|
    ensures OrdinalLess(a + s, b + t) <==> OrdinalLess(a, b) || (a == b && OrdinalLess(s, t))
    decreases |a|
  {
    if a == [] {
      assert a + s == s && b + t == t;
    } else {
      assert (a + s)[1..] == a[1..] + s && (b + t)[1..] == b[1..] + t;
      OrdinalAppend(a[1..], b[1..], s, t);
    }
  }

  lemma {:induction false} DigitsOrder(i: nat, j: nat, width: nat)
    requires i < Power10(width) && j < Power10(width)
    ensures OrdinalLess(Digits(i, width), Digits(j, width)) <==> i < j
    ensures Digits(i, width) == Digits(j, width) <==> i == j
    decreases width
  {
    if width > 0 {
      DigitsOrder(i / 10, j / 10, width - 1);
      var a, b := Digits(i / 10, width - 1), Digits(j / 10, width - 1);
      var x, y := Digit(i % 10), Digit(j % 10);
      OrdinalAppend(a, b, [x], [y]);
      assert (a + [x])[..width - 1] == a && (b + [y])[..width - 1] == b;
      assert (a + [x])[width - 1] == x && (b + [y])[width - 1] == y;
      assert OrdinalLess([x], [y]) <==> x < y;
    }
  }

  /** Ordinal order of the names is numeric order of the indexes. */
  lemma NameOrder(i: nat, j: nat)
    requires i < LONG_LIMIT && j < LONG_LIMIT
    ensures OrdinalLess(SegmentName(i), SegmentName(j)) <==> i < j
    ensures SegmentName(i) == SegmentName(j) <==> i == j
  {
    LongFits();
    DigitsOrder(i, j, NAME_DIGITS);
    var a, b := Digits(i, NAME_DIGITS), Digits(j, NAME_DIGITS);
    OrdinalAppend(a, b, EXTENSION, EXTENSION);
    OrdinalIrreflexive(EXTENSION);
    assert SegmentName(i)[..NAME_DIGITS] == a && SegmentName(j)[..NAME_DIGITS] == b;
  }

  lemma {:induction false} OrdinalIrreflexive(s: string)
    ensures !OrdinalLess(s, s)
    decreases |s|
  {
    if s != [] { OrdinalIrreflexive(s[1..]); }
  }
}
