/** Decimal formatting of integers, as `strconv.Itoa` and the `%d` verb produce it,
    together with the parser it is the inverse of. */
module Decimal {

  predicate IsDigit(c: char) {
    '0' <= c <= '9'
  }

  predicate AllDigits(s: string) {
    forall i :: 0 <= i < |s| ==> IsDigit(s[i])
  }

  function DigitChar(d: nat): (c: char)
    requires d < 10
    ensures IsDigit(c)
  {
    ['0', '1', '2', '3', '4', '5', '6', '7', '8', '9'][d]
  }

  function DigitValue(c: char): (d: nat)
    requires IsDigit(c)
    ensures d < 10
  {
    (c as int - '0' as int) as nat
  }

  /** The decimal digits of `n`, most significant first, without leading zeros. */
  function NatToString(n: nat): (s: string)
    ensures |s| >= 1 && AllDigits(s)
    ensures s[0] == '0' ==> n == 0
    decreases n
  {
    if n < 10 then [DigitChar(n)] else NatToString(n / 10) + [DigitChar(n % 10)]
  }

  /** `strconv.Itoa`: a minus sign for negative numbers, then the digits of the magnitude. */
  function IntToString(i: int): (s: string)
    ensures |s| >= 1
    ensures i < 0 <==> s[0] == '-'
    ensures i >= 0 ==> AllDigits(s)
  {
    if i < 0 then "-" + NatToString(-i) else NatToString(i)
  }

  /** The value of a string of decimal digits. */
  function Value(s: string): nat
    requires AllDigits(s)
  {
    if s == [] then 0 else 10 * Value(s[..|s| - 1]) + DigitValue(s[|s| - 1])
  }

  lemma DigitRoundTrip(d: nat)
    requires d < 10
    ensures DigitValue(DigitChar(d)) == d
  {
    var digits := ['0', '1', '2', '3', '4', '5', '6', '7', '8', '9'];
    assert DigitChar(d) == digits[d];
  }

  /** Reading back what NatToString wrote gives the number again. */
  lemma {:induction false} NatRoundTrip(n: nat)
    ensures Value(NatToString(n)) == n
    decreases n
  {
    DigitRoundTrip(n % 10);
    if n >= 10 {
      NatRoundTrip(n / 10);
      var s := NatToString(n);
      assert s[..|s| - 1] == NatToString(n / 10);
    }
  }

  /** Different numbers never share a decimal form. */
  lemma NatToStringInjective(a: nat, b: nat)
    ensures NatToString(a) == NatToString(b) ==> a == b
  {
    NatRoundTrip(a);
    NatRoundTrip(b);
  }

  lemma DropSign(s: string)
    ensures ("-" + s)[1..] == s
  {
  }

  /** Different integers never share an `Itoa` form: the external id of a post determines its remote id. */
  lemma IntToStringInjective(a: int, b: int)
    ensures IntToString(a) == IntToString(b) ==> a == b
  {
    if IntToString(a) == IntToString(b) {
      if a < 0 && b < 0 {
        DropSign(NatToString(-a));
        DropSign(NatToString(-b));
        NatToStringInjective(-a, -b);
      } else if a >= 0 && b >= 0 {
        NatToStringInjective(a, b);
      }
    }
  }

  /** A decimal form followed by something that does not start with a digit can be split again:
      the digits and the rest are both determined. */
  lemma NatToStringPrefix(a: nat, x: string, b: nat, y: string)
    requires x == [] || !IsDigit(x[0])
    requires y == [] || !IsDigit(y[0])
    requires NatToString(a) + x == NatToString(b) + y
    ensures a == b && x == y
  {
    var sa, sb := NatToString(a), NatToString(b);
    var t := sa + x;
    assert forall k :: 0 <= k < |sa| ==> IsDigit(t[k]);
    assert forall k :: 0 <= k < |sb| ==> IsDigit(t[k]);
    assert |sa| < |t| ==> t[|sa|] == x[0];
    assert |sb| < |t| ==> t[|sb|] == y[0];
    assert sa == (sa + x)[..|sa|];
    assert sb == (sb + y)[..|sb|];
    NatToStringInjective(a, b);
    assert x == (sa + x)[|sa|..];
    assert y == (sb + y)[|sb|..];
  }

  /** The same, after a common prefix: a file name made of a prefix, a decimal id and a non-digit
      suffix determines the id. */
  lemma PrefixedNatToString(pre: string, a: nat, x: string, b: nat, y: string)
    requires x == [] || !IsDigit(x[0])
    requires y == [] || !IsDigit(y[0])
    requires pre + NatToString(a) + x == pre + NatToString(b) + y
    ensures a == b && x == y
  {
    DropPrefix(pre, NatToString(a), x);
    DropPrefix(pre, NatToString(b), y);
    NatToStringPrefix(a, x, b, y);
  }

  lemma DropPrefix(pre: string, u: string, v: string)
    ensures (pre + u + v)[|pre|..] == u + v
  {
  }

  /** The decimal forms of the ids the file-name tests use. */
  lemma SmallIds()
    ensures NatToString(1) == "1" && NatToString(2) == "2" && NatToString(4) == "4" && NatToString(9) == "9"
  {
  }

  lemma Id1234()
    ensures NatToString(1234) == "1234"
  {
  }

  lemma Id54543()
    ensures NatToString(54543) == "54543"
  {
  }

  lemma Id65464()
    ensures NatToString(65464) == "65464"
  {
  }

  lemma Id34543()
    ensures NatToString(34543) == "34543"
  {
  }
}
