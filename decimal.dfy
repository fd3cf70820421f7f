/** Decimal text of integers, as JavaScript writes an integral Number inside a
    template literal (`${n}`): no leading zeros, a leading '-' when negative. */
module Decimal {

  predicate IsDigit(c: char) {
    '0' <= c <= '9'
  }

  predicate AllDigits(s: string) {
    forall i :: 0 <= i < |s| ==> IsDigit(s[i])
  }

  function DigitChar(d: int): (c: char)
    requires 0 <= d < 10
    ensures IsDigit(c) && c as int - '0' as int == d
  {
    ('0' as int + d) as char
  }

  /** The decimal digits of a natural number. */
  function NatToString(n: nat): (s: string)
    ensures |s| > 0 && AllDigits(s)
    ensures s[0] == '0' ==> n == 0 && s == "0"
    decreases n
  {
    if n < 10 then [DigitChar(n)] else NatToString(n / 10) + [DigitChar(n % 10)]
  }

  /** The value of a string of decimal digits. */
  function ParseDigits(s: string): nat
    requires AllDigits(s)
    decreases |s|
  {
    if s == [] then 0
    else 10 * ParseDigits(s[..|s| - 1]) + (s[|s| - 1] as int - '0' as int)
  }

  /** Reading the digits back gives the number that was written. */
  lemma {:induction false} ParseNatToString(n: nat)
    ensures ParseDigits(NatToString(n)) == n
    decreases n
  {
    var s := NatToString(n);
    if n >= 10 {
      ParseNatToString(n / 10);
      assert s[..|s| - 1] == NatToString(n / 10);
    }
  }

  /** Different numbers are written differently. */
  lemma NatToStringInjective(m: nat, n: nat)
    ensures NatToString(m) == NatToString(n) <==> m == n
  {
    if NatToString(m) == NatToString(n) {
      ParseNatToString(m);
      ParseNatToString(n);
    }
  }

  /** The text of an integer: its digits, with no leading zero unless it is
      0 itself, after a '-' when it is negative. */
  function IntToString(i: int): (s: string)
    ensures |s| > 0
    ensures s[0] == '-' <==> i < 0
    ensures i >= 0 ==> AllDigits(s) && ParseDigits(s) == i
    ensures i < 0 ==> AllDigits(s[1..]) && ParseDigits(s[1..]) == -i
    ensures i >= 0 ==> (s[0] == '0' ==> s == "0")
    ensures i < 0 ==> |s| >= 2 && s[1] != '0'
  {
    ParseNatToString(if i < 0 then -i else i);
    if i < 0 then
      assert ("-" + NatToString(-i))[1..] == NatToString(-i);
      "-" + NatToString(-i)
    else
      NatToString(i)
  }

  /** A run of digits followed by text that does not start with a digit can be
      split in only one way. */
  lemma DigitsThenRest(d1: string, r1: string, d2: string, r2: string)
    requires |d1| > 0 && AllDigits(d1) && |r1| > 0 && !IsDigit(r1[0])
    requires |d2| > 0 && AllDigits(d2) && |r2| > 0 && !IsDigit(r2[0])
    requires d1 + r1 == d2 + r2
    ensures d1 == d2 && r1 == r2
  {
    DigitsNotShorter(d1, r1, d2, r2);
    DigitsNotShorter(d2, r2, d1, r1);
    var t := d1 + r1;
    assert d1 == t[..|d1|] == d2;
    assert r1 == t[|d1|..] == r2;
  }

  lemma DigitsNotShorter(d1: string, r1: string, d2: string, r2: string)
    requires AllDigits(d1) && |r1| > 0 && !IsDigit(r1[0]) && AllDigits(d2)
    requires d1 + r1 == d2 + r2
    ensures |d1| >= |d2|
  {
    if |d1| < |d2| {
      AppendIndex(d1, r1, |d1|);
      assert false;
    }
  }

  lemma AppendIndex<T>(a: seq<T>, b: seq<T>, k: int)
    requires |a| <= k < |a| + |b|
    ensures (a + b)[k] == b[k - |a|]
  {
  }

  lemma DropSign(a: string, r: string)
    ensures ("-" + a + r)[1..] == a + r
  {
  }

  /** The text of an integer followed by text that starts with neither a digit
      nor a sign gives back the integer and the rest. */
  lemma {:induction false} IntTextThenRest(i: int, r1: string, j: int, r2: string)
    requires |r1| > 0 && !IsDigit(r1[0]) && |r2| > 0 && !IsDigit(r2[0])
    requires IntToString(i) + r1 == IntToString(j) + r2
    ensures i == j && r1 == r2
  {
    var t := IntToString(i) + r1;
    assert t[0] == IntToString(i)[0] == IntToString(j)[0];
    if i < 0 {
      NegativeTextThenRest(i, r1, j, r2);
    } else {
      DigitsThenRest(NatToString(i), r1, NatToString(j), r2);
      NatToStringInjective(i, j);
    }
  }

  lemma NegativeTextThenRest(i: int, r1: string, j: int, r2: string)
    requires i < 0 && j < 0
    requires |r1| > 0 && !IsDigit(r1[0]) && |r2| > 0 && !IsDigit(r2[0])
    requires IntToString(i) + r1 == IntToString(j) + r2
    ensures i == j && r1 == r2
  {
    var a, b := NatToString(-i), NatToString(-j);
    assert IntToString(i) == "-" + a && IntToString(j) == "-" + b;
    DropSign(a, r1);
    DropSign(b, r2);
    DigitsThenRest(a, r1, b, r2);
    NatToStringInjective(-i, -j);
  }
}
