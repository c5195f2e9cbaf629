/** Unsigned integers as little-endian bytes. */
module Bytes {
  import opened Division

  type Byte = x: int | 0 <= x < 256

  function Power(n: nat): (p: nat)
    ensures p > 0
  {
    if n == 0 then 1 else 256 * Power(n - 1)
  }

  /** The lowest `n` bytes of `x`, lowest first. */
  function Digits(x: nat, n: nat): (s: seq<Byte>)
    ensures |s| == n
  {
    if n == 0 then [] else [x % 256] + Digits(x / 256, n - 1)
  }

  /** Each byte, by its place. */
  lemma {:induction false} DigitsAt(x: nat, n: nat, i: nat)
    requires i < n
    ensures Digits(x, n)[i] == x / Power(i) % 256
  {
    if i > 0 {
      DigitsAt(x / 256, n - 1, i - 1);
      DivDiv(x, Power(i - 1));
    }
  }

  lemma DivDiv(x: nat, d: nat)
    requires d > 0
    ensures x / 256 / d == x / (256 * d)
  {
    var q, r := x / 256 / d, x / 256 % d;
    assert x / 256 == q * d + r;
    assert x == 256 * (q * d + r) + x % 256;
    assert 256 * (q * d) == (256 * d) * q;
    QuotientUnique(x, 256 * d, q, 256 * r + x % 256);
  }

  function Value(s: seq<Byte>): nat {
    if s == [] then 0 else s[0] + 256 * Value(s[1..])
  }

  lemma {:induction false} ValueBound(s: seq<Byte>)
    ensures Value(s) < Power(|s|)
  {
    if s != [] {
      ValueBound(s[1..]);
    }
  }

  /** Writing what was read gives the same bytes, so different bytes have different values. */
  lemma {:induction false} DigitsValue(s: seq<Byte>)
    ensures Digits(Value(s), |s|) == s
  {
    if s != [] {
      DigitsValue(s[1..]);
    }
  }

  /** Reading what was written gives the same number, if it fits. */
  lemma {:induction false} ValueDigits(x: nat, n: nat)
    requires x < Power(n)
    ensures Value(Digits(x, n)) == x
  {
    if n > 0 {
      ValueDigits(x / 256, n - 1);
      assert Digits(x, n)[1..] == Digits(x / 256, n - 1);
    }
  }

  lemma {:induction false} ValueConcat(a: seq<Byte>, b: seq<Byte>)
    ensures Value(a + b) == Value(a) + Power(|a|) * Value(b)
  {
    if a == [] {
      assert a + b == b;
    } else {
      assert (a + b)[1..] == a[1..] + b;
      ValueConcat(a[1..], b);
      assert 256 * (Power(|a| - 1) * Value(b)) == Power(|a|) * Value(b);
    }
  }

  /** The two parts of a written number. */
  lemma {:induction false} DigitsSplit(x: nat, n: nat, r: nat)
    requires x < Power(n) && r <= n
    ensures Value(Digits(x, n)[..r]) == x % Power(r)
    ensures Value(Digits(x, n)[r..]) == x / Power(r)
  {
    var s := Digits(x, n);
    assert s == s[..r] + s[r..];
    ValueConcat(s[..r], s[r..]);
    ValueDigits(x, n);
    ValueBound(s[..r]);
    QuotientUnique(x, Power(r), Value(s[r..]), Value(s[..r]));
  }

  lemma QuotientUnique(x: nat, d: nat, q: nat, r: nat)
    requires d > 0 && r < d && x == r + d * q
    ensures x / d == q && x % d == r
  {
    DivAtLeast(x, d, q);
    DivAtLeast(x, d, q + 1);
    assert (q + 1) * d == q * d + d;
    assert x == x / d * d + x % d;
  }

  // ---------------------------------------------------------------------------
  // Eight-byte words
  // ---------------------------------------------------------------------------

  const WORD: nat := 8
  const MAX64: nat := 0x1_0000_0000_0000_0000

  lemma PowerWord()
    ensures Power(WORD) == MAX64
  {
    assert Power(4) == 0x1_0000_0000;
    assert Power(8) == 256 * Power(7) == 256 * (256 * Power(6)) == 256 * (256 * (256 * Power(5)));
  }

  /** A 64-bit word; larger numbers lose their upper bytes. */
  function Word(x: nat): (s: seq<Byte>)
    ensures |s| == WORD && (x < MAX64 ==> Value(s) == x)
  {
    if x < MAX64 then
      PowerWord();
      ValueDigits(x, WORD);
      Digits(x, WORD)
    else
      Digits(x, WORD)
  }

  /** A word is the only encoding of its value. */
  lemma WordOfValue(s: seq<Byte>, x: nat)
    requires |s| == WORD && x < MAX64
    ensures Value(s) == x <==> s == Word(x)
  {
    DigitsValue(s);
  }
}
