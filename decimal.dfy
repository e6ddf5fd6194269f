/**
 * Decimal text of integers, as JavaScript's Number.prototype.toString gives it
 * for integral values (no leading zeros, a leading '-' for negatives), and the
 * digit-string reading used when a date string is parsed.
 */
module Decimal {

  function Digit(d: int): char
    requires 0 <= d <= 9
  {
    "0123456789"[d]
  }

  predicate IsDigit(c: char) {
    '0' <= c <= '9'
  }

  predicate AllDigits(s: string) {
    forall i | 0 <= i < |s| :: IsDigit(s[i])
  }

  function DigitValue(c: char): (v: int)
    requires IsDigit(c)
    ensures 0 <= v <= 9
  {
    c as int - '0' as int
  }

  lemma DigitOfValue(c: char)
    requires IsDigit(c)
    ensures Digit(DigitValue(c)) == c
  {
    var v := DigitValue(c);
    if v < 5 {
      assert v == 0 || v == 1 || v == 2 || v == 3 || v == 4;
    } else {
      assert v == 5 || v == 6 || v == 7 || v == 8 || v == 9;
    }
  }

  lemma DigitValueOfDigit(d: int)
    requires 0 <= d <= 9
    ensures IsDigit(Digit(d)) && DigitValue(Digit(d)) == d
  {
  }

  /** The decimal digits of n, most significant first, without leading zeros. */
  function NatToString(n: nat): (s: string)
    ensures 1 <= |s| && AllDigits(s)
    ensures n < 10 <==> |s| == 1
    decreases n
  {
    if n < 10 then [Digit(n)] else NatToString(n / 10) + [Digit(n % 10)]
  }

  /** Number.prototype.toString of an integral number. */
  function IntToString(n: int): (s: string)
    ensures 1 <= |s|
    ensures n < 0 <==> s[0] == '-'
  {
    if n < 0 then "-" + NatToString(-n) else NatToString(n)
  }

  /** The number a string of decimal digits denotes (0 for the empty string). */
  function DigitsValue(s: string): (n: nat)
    requires AllDigits(s)
  {
    if |s| == 0 then 0 else DigitsValue(s[..|s| - 1]) * 10 + DigitValue(s[|s| - 1])
  }

  /** Reading back the decimal text of n gives n. */
  lemma {:induction false} NatToStringRoundTrip(n: nat)
    ensures DigitsValue(NatToString(n)) == n
    decreases n
  {
    var s := NatToString(n);
    if n < 10 {
      DigitValueOfDigit(n);
      assert s[..0] == [];
    } else {
      NatToStringRoundTrip(n / 10);
      DigitValueOfDigit(n % 10);
      assert s[..|s| - 1] == NatToString(n / 10);
    }
  }

  /** Different integers have different decimal texts. */
  lemma IntToStringInjective(a: int, b: int)
    requires IntToString(a) == IntToString(b)
    ensures a == b
  {
    var s := IntToString(a);
    if a < 0 && b < 0 {
      var na, nb: nat := -a, -b;
      assert s == "-" + NatToString(na) && s == "-" + NatToString(nb);
      assert NatToString(na) == s[1..] == NatToString(nb);
      NatToStringRoundTrip(na);
      NatToStringRoundTrip(nb);
    } else if 0 <= a && 0 <= b {
      NatToStringRoundTrip(a);
      NatToStringRoundTrip(b);
    }
  }

  /** A number of four digits is written with exactly those four digits. */
  lemma FourDigits(n: nat)
    requires 1000 <= n <= 9999
    ensures NatToString(n) == [Digit(n / 10 / 10 / 10), Digit(n / 10 / 10 % 10), Digit(n / 10 % 10), Digit(n % 10)]
  {
    var q1 := n / 10;
    var q2 := q1 / 10;
    var q3 := q2 / 10;
    assert NatToString(n) == NatToString(q1) + [Digit(n % 10)];
    assert NatToString(q1) == NatToString(q2) + [Digit(q1 % 10)];
    assert NatToString(q2) == NatToString(q3) + [Digit(q2 % 10)];
    assert NatToString(q3) == [Digit(q3)];
  }

  lemma DivTen(q: int, r: int)
    requires 0 <= r < 10
    ensures (10 * q + r) / 10 == q && (10 * q + r) % 10 == r
  {
  }

  lemma FourDigitsSum(s: string)
    requires |s| == 4 && AllDigits(s)
    ensures DigitsValue(s) ==
      10 * (10 * (10 * DigitValue(s[0]) + DigitValue(s[1])) + DigitValue(s[2])) + DigitValue(s[3])
  {
    assert s[..3][..2] == s[..2] && s[..2][..1] == s[..1] && s[..1][..0] == [];
    assert DigitsValue(s[..1]) == DigitValue(s[0]);
    assert DigitsValue(s[..2]) == DigitValue(s[0]) * 10 + DigitValue(s[1]);
  }

  /** Four digits without a leading zero denote a number whose text they are. */
  lemma FourDigitsValue(s: string)
    requires |s| == 4 && AllDigits(s) && s[0] != '0'
    ensures 1000 <= DigitsValue(s) <= 9999
    ensures NatToString(DigitsValue(s)) == s
  {
    var a, b, c, d := DigitValue(s[0]), DigitValue(s[1]), DigitValue(s[2]), DigitValue(s[3]);
    FourDigitsSum(s);
    var n := DigitsValue(s);
    var m2 := 10 * a + b;
    var m1 := 10 * m2 + c;
    assert n == 10 * m1 + d;
    DivTen(m1, d);
    DivTen(m2, c);
    DivTen(a, b);
    assert n / 10 == m1 && n % 10 == d;
    assert n / 10 / 10 == m2 && n / 10 % 10 == c;
    assert n / 10 / 10 / 10 == a && n / 10 / 10 % 10 == b;
    assert a != 0;
    assert 1000 <= n <= 9999;
    FourDigits(n);
    DigitOfValue(s[0]);
    DigitOfValue(s[1]);
    DigitOfValue(s[2]);
    DigitOfValue(s[3]);
    assert NatToString(n) == [s[0], s[1], s[2], s[3]];
  }
}
