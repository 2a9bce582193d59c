/**
 * Decimal text of integers: Python's `str(n)` for an `int` (which the csv writer
 * applies to integer cells) and `int(s)` for a string (which the JSON exporter
 * applies to numeric cells).  `int(s)` is modelled for ASCII literals: an optional
 * sign followed by one or more digits.
 */
module Decimal {
  import opened Wrappers

  predicate IsDigit(c: char) {
    '0' <= c <= '9'
  }

  predicate AllDigits(s: string) {
    forall i :: 0 <= i < |s| ==> IsDigit(s[i])
  }

  function DigitChar(d: nat): (c: char)
    requires d < 10
    ensures IsDigit(c) && c as int - '0' as int == d
  {
    (d + '0' as int) as char
  }

  /** The decimal digits of n, most significant first, without leading zeros. */
  function NatText(n: nat): (s: string)
    ensures |s| >= 1 && AllDigits(s)
    ensures |s| > 1 ==> s[0] != '0'
    decreases n
  {
    if n < 10 then [DigitChar(n)] else NatText(n / 10) + [DigitChar(n % 10)]
  }

  /** `str(i)` for an int i. */
  function IntText(i: int): (s: string)
    ensures |s| >= 1
    ensures i < 0 <==> s[0] == '-'
  {
    if i < 0 then "-" + NatText(-i) else NatText(i)
  }

  /** The value of a string of decimal digits. */
  function DigitsValue(s: string): nat
    requires AllDigits(s)
  {
    if s == [] then 0
    else DigitsValue(s[..|s| - 1]) * 10 + (s[|s| - 1] as int - '0' as int)
  }

  /** `int(s)`: Some(value) when s is a decimal literal, None when Python raises ValueError. */
  function ParseInt(s: string): (r: Option<int>)
    ensures r.Some? <==>
      (|s| > 0 && AllDigits(s)) ||
      (|s| > 1 && (s[0] == '-' || s[0] == '+') && AllDigits(s[1..]))
    ensures r.Some? && s[0] == '-' ==> r.value <= 0
    ensures r.Some? && s[0] != '-' ==> r.value >= 0
  {
    if |s| > 1 && (s[0] == '-' || s[0] == '+') && AllDigits(s[1..]) then
      var m: int := DigitsValue(s[1..]);
      Some(if s[0] == '-' then -m else m)
    else if |s| > 0 && AllDigits(s) then
      Some(DigitsValue(s))
    else
      None
  }

  lemma {:induction false} NatTextValue(n: nat)
    ensures DigitsValue(NatText(n)) == n
    decreases n
  {
    if n >= 10 {
      var s := NatText(n);
      assert s[..|s| - 1] == NatText(n / 10);
      NatTextValue(n / 10);
    }
  }

  /** Round trip: the decimal text of any integer parses back to that integer. */
  lemma ParseIntText(i: int)
    ensures ParseInt(IntText(i)) == Some(i)
  {
    if i < 0 {
      assert IntText(i) == "-" + NatText(-i);
      ParseNegText(-i);
    } else {
      assert IntText(i) == NatText(i);
      ParseNatText(i);
    }
  }

  lemma ParseNegText(n: nat)
    ensures ParseInt("-" + NatText(n)) == Some(-(n as int))
  {
    var s := "-" + NatText(n);
    assert s[1..] == NatText(n);
    NatTextValue(n);
  }

  lemma ParseNatText(n: nat)
    ensures ParseInt(NatText(n)) == Some(n)
  {
    var s := NatText(n);
    assert IsDigit(s[0]);
    NatTextValue(n);
  }

  // ---------------------------------------------------------------------------
  // Literals `str(n)` never writes: a '+' sign and leading zeros

  /** k zero digits. */
  function Zeros(k: nat): (z: string)
    ensures |z| == k && AllDigits(z)
    ensures forall i :: 0 <= i < k ==> z[i] == '0'
  {
    if k == 0 then "" else Zeros(k - 1) + "0"
  }

  lemma {:induction false} ZerosValue(k: nat)
    ensures DigitsValue(Zeros(k)) == 0
  {
    if k > 0 {
      assert Zeros(k)[..k - 1] == Zeros(k - 1);
      ZerosValue(k - 1);
    }
  }

  /** Leading zeros do not change the value of a digit string. */
  lemma {:induction false} LeadingZerosValue(k: nat, d: string)
    requires AllDigits(d)
    ensures AllDigits(Zeros(k) + d)
    ensures DigitsValue(Zeros(k) + d) == DigitsValue(d)
    decreases |d|
  {
    var z := Zeros(k) + d;
    assert forall i :: 0 <= i < |z| ==> IsDigit(z[i]) by {
      forall i | 0 <= i < |z| ensures IsDigit(z[i]) {
        if i >= k { assert z[i] == d[i - k]; }
      }
    }
    if d == [] {
      assert z == Zeros(k);
      ZerosValue(k);
    } else {
      var front := d[..|d| - 1];
      assert z[..|z| - 1] == Zeros(k) + front;
      assert z[|z| - 1] == d[|d| - 1];
      LeadingZerosValue(k, front);
    }
  }

  /** A run of digits is some zeros followed by the canonical text of its value. */
  lemma {:induction false} DigitsForm(d: string) returns (k: nat, n: nat)
    requires |d| > 0 && AllDigits(d)
    ensures d == Zeros(k) + NatText(n)
    decreases |d|
  {
    if |d| > 1 && d[0] == '0' {
      var j: nat;
      j, n := DigitsForm(d[1..]);
      k := j + 1;
      ZerosCons(j);
      assert d == [d[0]] + d[1..];
    } else {
      CanonicalDigits(d);
      k, n := 0, DigitsValue(d);
      assert Zeros(0) == "";
    }
  }

  lemma {:induction false} ZerosCons(k: nat)
    ensures Zeros(k + 1) == "0" + Zeros(k)
  {
    if k > 0 {
      ZerosCons(k - 1);
    }
  }

  /** A digit string without a leading zero is the text `str` writes for its value. */
  lemma {:induction false} CanonicalDigits(d: string)
    requires |d| > 0 && AllDigits(d) && (|d| > 1 ==> d[0] != '0')
    ensures NatText(DigitsValue(d)) == d
    decreases |d|
  {
    var v := DigitsValue(d);
    if |d| > 1 {
      var front := d[..|d| - 1];
      assert front[0] == d[0];
      CanonicalDigits(front);
      var c := d[|d| - 1] as int - '0' as int;
      assert v == DigitsValue(front) * 10 + c;
      assert DigitsValue(front) >= 1 by {
        if |front| == 1 {
          assert front[..0] == [];
        } else {
          PositiveLead(front);
        }
      }
      assert v / 10 == DigitsValue(front) && v % 10 == c;
      assert d == front + [DigitChar(c)];
    } else {
      assert d[..0] == [];
    }
  }

  /** A digit string of two or more digits without a leading zero is at least 10. */
  lemma {:induction false} PositiveLead(d: string)
    requires |d| > 1 && AllDigits(d) && d[0] != '0'
    ensures DigitsValue(d) >= 10
    decreases |d|
  {
    var front := d[..|d| - 1];
    assert front[0] == d[0];
    if |front| == 1 {
      assert front[..0] == [];
    } else {
      PositiveLead(front);
    }
  }

  /** `int("00" + str(n)) == n`. */
  lemma ParseZeros(k: nat, n: nat)
    ensures ParseInt(Zeros(k) + NatText(n)) == Some(n)
  {
    NatTextValue(n);
    LeadingZerosValue(k, NatText(n));
    var s := Zeros(k) + NatText(n);
    assert s[|s| - 1] == NatText(n)[|NatText(n)| - 1];
    assert IsDigit(s[0]);
  }

  /** `int("+00" + str(n)) == n`. */
  lemma ParsePlusZeros(k: nat, n: nat)
    ensures ParseInt("+" + Zeros(k) + NatText(n)) == Some(n)
  {
    NatTextValue(n);
    LeadingZerosValue(k, NatText(n));
    var d := Zeros(k) + NatText(n);
    var s := "+" + d;
    assert s[0] == '+' && s[1..] == d;
    assert "+" + Zeros(k) + NatText(n) == s;
  }

  /** `int("-00" + str(n)) == -n`. */
  lemma ParseMinusZeros(k: nat, n: nat)
    ensures ParseInt("-" + Zeros(k) + NatText(n)) == Some(-(n as int))
  {
    NatTextValue(n);
    LeadingZerosValue(k, NatText(n));
    var d := Zeros(k) + NatText(n);
    var s := "-" + d;
    assert s[0] == '-' && s[1..] == d;
    assert "-" + Zeros(k) + NatText(n) == s;
  }

  /** Every literal `int` accepts is zeros and canonical digits, optionally signed, with the value those forms give. */
  lemma ParseIntForms(s: string)
    requires ParseInt(s).Some?
    ensures exists k: nat, n: nat ::
      || (s == Zeros(k) + NatText(n) && ParseInt(s) == Some(n))
      || (s == "+" + Zeros(k) + NatText(n) && ParseInt(s) == Some(n))
      || (s == "-" + Zeros(k) + NatText(n) && ParseInt(s) == Some(-(n as int)))
  {
    var k: nat, n: nat := SplitLiteral(s);
    if s[0] == '-' {
      ParseMinusZeros(k, n);
    } else if s[0] == '+' {
      ParsePlusZeros(k, n);
    } else {
      ParseZeros(k, n);
    }
  }

  /** After the sign of an accepted literal come one or more digits. */
  lemma SignedDigits(s: string)
    requires ParseInt(s).Some? && (s[0] == '-' || s[0] == '+')
    ensures |s| > 1 && AllDigits(s[1..])
  {
    assert !IsDigit(s[0]);
  }

  /** The zeros and the canonical digits of an accepted literal, after its sign. */
  lemma SplitLiteral(s: string) returns (k: nat, n: nat)
    requires ParseInt(s).Some?
    ensures s[0] == '-' ==> s == "-" + Zeros(k) + NatText(n)
    ensures s[0] == '+' ==> s == "+" + Zeros(k) + NatText(n)
    ensures s[0] != '-' && s[0] != '+' ==> s == Zeros(k) + NatText(n)
  {
    if s[0] == '-' || s[0] == '+' {
      SignedDigits(s);
      k, n := DigitsForm(s[1..]);
      SignPrefix(s, Zeros(k) + NatText(n));
    } else {
      UnsignedDigits(s);
      k, n := DigitsForm(s);
    }
  }

  /** An accepted literal without a sign is all digits. */
  lemma UnsignedDigits(s: string)
    requires ParseInt(s).Some? && s[0] != '-' && s[0] != '+'
    ensures |s| > 0 && AllDigits(s)
  {
  }

  lemma SignPrefix(s: string, d: string)
    requires |s| > 0 && s[1..] == d
    ensures s[0] == '-' ==> s == "-" + d
    ensures s[0] == '+' ==> s == "+" + d
  {
    assert s == [s[0]] + s[1..];
  }
}
