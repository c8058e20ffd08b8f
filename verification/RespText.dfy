/** Decimal text: how integers are written and read on the wire. */
module RespText {
  import opened Basics
  import opened Bytes

  const CR: byte := 13
  const LF: byte := 10
  const SPACE: byte := 32
  const PLUS: byte := 43
  const MINUS: byte := 45
  const ZERO: byte := 48
  const NINE: byte := 57

  const INT64_MIN := -0x8000_0000_0000_0000
  const INT64_MAX := 0x7fff_ffff_ffff_ffff

  type int64 = x: int | INT64_MIN <= x <= INT64_MAX

  predicate IsDigit(b: byte) {
    ZERO <= b <= NINE
  }

  predicate AllDigits(s: seq<byte>) {
    forall i :: 0 <= i < |s| ==> IsDigit(s[i])
  }

  function Digits(n: nat): (s: seq<byte>)
    ensures |s| >= 1 && AllDigits(s)
  {
    if n < 10 then [ZERO + n as byte]
    else Digits(n / 10) + [ZERO + (n % 10) as byte]
  }

  /** The usual decimal form of an integer. */
  function Decimal(i: int): (s: seq<byte>)
    ensures |s| >= 1
  {
    if i < 0 then [MINUS] + Digits(-i) else Digits(i)
  }

  function Value(s: seq<byte>): int {
    if s == [] then 0
    else Value(s[..|s| - 1]) * 10 + (s[|s| - 1] as int - ZERO as int)
  }

  /**
   The library parser for base 10 and 64 bits: an optional sign, at least one digit and
   nothing else, and a value that fits.
   */
  function ParseDecimal(s: seq<byte>): Option<int64> {
    var signed := s != [] && (s[0] == MINUS || s[0] == PLUS);
    var digits := if signed then s[1..] else s;
    if digits == [] || !AllDigits(digits) then None
    else
      var v := if s[0] == MINUS then -Value(digits) else Value(digits);
      if INT64_MIN <= v <= INT64_MAX then Some(v) else None
  }

  lemma {:induction false} ValueOfDigits(n: nat)
    ensures Value(Digits(n)) == n
  {
    if n >= 10 {
      ValueOfDigits(n / 10);
      assert Digits(n)[..|Digits(n)| - 1] == Digits(n / 10);
    } else {
      assert Digits(n)[..0] == [];
    }
  }

  /** Reading back what was written gives the number, for every 64-bit integer. */
  lemma ParseOfDecimal(i: int64)
    ensures ParseDecimal(Decimal(i)) == Some(i)
  {
    hide Digits, Value;
    var n: int := i;
    if n < 0 {
      ValueOfDigits(-n);
      assert Decimal(n)[1..] == Digits(-n);
    } else {
      ValueOfDigits(i);
      assert IsDigit(Digits(i)[0]);
    }
  }

  function Pow10(k: nat): (p: nat)
    ensures p >= 1
  {
    if k == 0 then 1 else 10 * Pow10(k - 1)
  }

  lemma {:induction false} DigitsLength(n: nat, k: nat)
    requires k >= 1 && n < Pow10(k)
    ensures |Digits(n)| <= k
  {
    if n >= 10 {
      DigitsLength(n / 10, k - 1);
    }
  }

  /** The text of a 64-bit integer has at most 20 bytes, and none of them ends a line. */
  lemma DecimalFits(i: int64)
    ensures |Decimal(i)| <= 20
    ensures LF !in Decimal(i) && CR !in Decimal(i)
  {
    var n: int := i;
    assert Pow10(4) == 10_000;
    assert Pow10(8) == 100_000_000;
    assert Pow10(12) == 1_000_000_000_000;
    assert Pow10(16) == 10_000_000_000_000_000;
    assert Pow10(19) == 10_000_000_000_000_000_000;
    DigitsLength(if n < 0 then -n else n, 19);
  }

  lemma {:induction false} ValueBound(s: seq<byte>)
    requires AllDigits(s)
    ensures 0 <= Value(s) < Pow10(|s|)
  {
    if s != [] {
      ValueBound(s[..|s| - 1]);
    }
  }

  /** The fast parser for short texts, falling back on the library: always the library's answer. */
  method ParseInt64(s: seq<byte>) returns (r: Option<int64>)
    ensures r == ParseDecimal(s)
  {
    hide ParseDecimal, AllDigits, Value;
    if s != [] && |s| < 10 {
      var neg, i := false, 0;
      if s[0] == MINUS {
        neg := true;
        i := i + 1;
      } else if s[0] == PLUS {
        i := i + 1;
      }
      if |s| != i {
        ghost var from := i;
        var n := 0;
        NoDigits();
        assert s[from..i] == [];
        while i < |s| && IsDigit(s[i])
          invariant from <= i <= |s|
          invariant AllDigits(s[from..i]) && n == Value(s[from..i])
        {
          OneMoreDigit(s, from, i);
          n := (s[i] - ZERO) as int + n * 10;
          i := i + 1;
        }
        if |s| == i {
          assert s[from..i] == s[from..];
          ShortFits(s[from..]);
          ShortParses(s, from);
          return Some(if neg then -n else n);
        }
      }
    }
    r := ParseDecimal(s);
  }

  lemma NoDigits()
    ensures AllDigits([]) && Value([]) == 0
  {
  }

  lemma OneMoreDigit(s: seq<byte>, from: nat, i: nat)
    requires from <= i < |s| && AllDigits(s[from..i]) && IsDigit(s[i])
    ensures AllDigits(s[from..i + 1])
    ensures Value(s[from..i + 1]) == Value(s[from..i]) * 10 + (s[i] as int - ZERO as int)
  {
    assert s[from..i + 1][..i - from] == s[from..i];
  }

  /** A short text of digits, after its sign if it has one, is what the library reads. */
  lemma ShortParses(s: seq<byte>, from: nat)
    requires s != [] && from == (if s[0] == MINUS || s[0] == PLUS then 1 else 0) < |s|
    requires AllDigits(s[from..]) && 0 <= Value(s[from..]) < 1_000_000_000
    ensures ParseDecimal(s) == Some(if s[0] == MINUS then -Value(s[from..]) else Value(s[from..]))
  {
    hide Value;
    assert s[0..] == s;
  }

  lemma ShortFits(s: seq<byte>)
    requires AllDigits(s) && |s| < 10
    ensures 0 <= Value(s) < 1_000_000_000
  {
    ValueBound(s);
    Pow10Up(|s|, 9);
    assert Pow10(4) == 10_000;
    assert Pow10(9) == 1_000_000_000;
  }

  lemma {:induction false} Pow10Up(a: nat, b: nat)
    requires a <= b
    ensures Pow10(a) <= Pow10(b)
  {
    if a < b {
      Pow10Up(a, b - 1);
    }
  }
}
