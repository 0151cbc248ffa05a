/** Decimal text of integers: Python's `str(n)`, the zero-padded fields
    of `strftime`, and the parse that reads such text back. */
module Decimal {
  import opened Wrappers
  import Strings

  predicate IsDigit(c: char) {
    '0' <= c <= '9'
  }

  predicate AllDigits(s: string) {
    forall i :: 0 <= i < |s| ==> IsDigit(s[i])
  }

  function Digit(d: nat): (c: char)
    requires d < 10
    ensures IsDigit(c)
  {
    ('0' as int + d) as char
  }

  function DigitValue(c: char): nat
    requires IsDigit(c)
  {
    c as int - '0' as int
  }

  function Pow10(n: nat): (p: nat)
    ensures p >= 1
  {
    if n == 0 then 1 else 10 * Pow10(n - 1)
  }

  /** The number a string of digits denotes, most significant digit first. */
  function Value(s: string): nat
    requires AllDigits(s)
    decreases |s|
  {
    if |s| == 0 then 0 else 10 * Value(s[..|s| - 1]) + DigitValue(s[|s| - 1])
  }

  /** `str(n)` for a non-negative `n`: at least one digit, and no leading
      zero unless the number is 0 itself. */
  function NatToString(n: nat): (s: string)
    ensures 1 <= |s| && AllDigits(s)
    ensures |s| == 1 <==> n < 10
    ensures |s| > 1 ==> s[0] != '0'
    decreases n
  {
    if n < 10 then [Digit(n)] else NatToString(n / 10) + [Digit(n % 10)]
  }

  /** `str(n)` for any Python int. */
  function IntToString(n: int): string {
    if n < 0 then "-" + NatToString(-n) else NatToString(n)
  }

  /** Reads an optionally negative decimal numeral back into an integer. */
  function ParseInt(s: string): Option<int> {
    if |s| >= 2 && s[0] == '-' && AllDigits(s[1..]) then Some(0 - Value(s[1..]))
    else if |s| >= 1 && AllDigits(s) then Some(Value(s))
    else None
  }

  /** The last `width` decimal digits of `n`, with leading zeros: the
      `%Y` (width 4), `%m` and `%d` (width 2) fields of `strftime`. */
  function Pad(n: nat, width: nat): (s: string)
    ensures |s| == width && AllDigits(s)
    decreases width
  {
    if width == 0 then [] else Pad(n / 10, width - 1) + [Digit(n % 10)]
  }

  lemma AppendValue(s: string, d: nat)
    requires AllDigits(s) && d < 10
    ensures AllDigits(s + [Digit(d)])
    ensures Value(s + [Digit(d)]) == 10 * Value(s) + d
  {
    var t := s + [Digit(d)];
    assert t[..|t| - 1] == s;
  }

  lemma {:induction false} NatToStringValue(n: nat)
    ensures Value(NatToString(n)) == n
    decreases n
  {
    if n >= 10 {
      NatToStringValue(n / 10);
      AppendValue(NatToString(n / 10), n % 10);
    } else {
      assert NatToString(n) == [Digit(n)];
      assert NatToString(n)[..0] == [];
    }
  }

  /** Parsing the decimal string of any integer gives the integer back. */
  lemma ParseIntRoundTrip(n: int)
    ensures ParseInt(IntToString(n)) == Some(n)
  {
    if n < 0 {
      var t := NatToString(-n);
      NatToStringValue(-n);
      var s := "-" + t;
      assert s[0] == '-' && s[1..] == t;
      assert ParseInt(s) == Some(0 - Value(t));
    } else {
      var t := NatToString(n);
      NatToStringValue(n);
      assert t[0] != '-';
      assert ParseInt(t) == Some(Value(t));
    }
  }

  /** Distinct integers have distinct decimal strings. */
  lemma IntToStringInjective(a: int, b: int)
    ensures IntToString(a) == IntToString(b) <==> a == b
  {
    ParseIntRoundTrip(a);
    ParseIntRoundTrip(b);
  }

  lemma {:induction false} PadValue(n: nat, width: nat)
    requires n < Pow10(width)
    ensures Value(Pad(n, width)) == n
    decreases width
  {
    if width > 0 {
      PadValue(n / 10, width - 1);
      AppendValue(Pad(n / 10, width - 1), n % 10);
    }
  }

  lemma PadInjective(a: nat, b: nat, width: nat)
    requires a < Pow10(width) && b < Pow10(width)
    ensures Pad(a, width) == Pad(b, width) <==> a == b
  {
    PadValue(a, width);
    PadValue(b, width);
  }

  lemma DigitLe(a: nat, b: nat)
    requires a < 10 && b < 10
    ensures Strings.Le([Digit(a)], [Digit(b)]) <==> a <= b
  {
    assert [Digit(a)][1..] == [];
    assert [Digit(b)][1..] == [];
  }

  /** Zero-padded numerals of one width compare as strings exactly as the
      numbers they denote compare. */
  lemma {:induction false} PadOrder(a: nat, b: nat, width: nat)
    requires a < Pow10(width) && b < Pow10(width)
    ensures Strings.Le(Pad(a, width), Pad(b, width)) <==> a <= b
    decreases width
  {
    if width == 0 {
      assert a == 0 && b == 0;
    } else {
      var a', b' := a / 10, b / 10;
      PadOrder(a', b', width - 1);
      PadInjective(a', b', width - 1);
      Strings.LeConcat(Pad(a', width - 1), Pad(b', width - 1), [Digit(a % 10)], [Digit(b % 10)]);
      DigitLe(a % 10, b % 10);
      assert a == 10 * a' + a % 10 && b == 10 * b' + b % 10;
    }
  }
}
