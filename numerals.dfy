/** Decimal renderings of integers, and Python's `int()` reading them back. */
module Numerals {
  import opened Base
  import opened Text

  /** `str(n)` for a natural number: its decimal digits, most significant
      first. */
  function Digits(n: nat): (ds: string)
    ensures |ds| > 0 && forall k :: 0 <= k < |ds| ==> IsDigit(ds[k])
    decreases n
  {
    if n < 10 then [('0' as int + n) as char]
    else Digits(n / 10) + [('0' as int + n % 10) as char]
  }

  /** `str(n)` for any integer. */
  function Decimal(n: int): string {
    if n < 0 then "-" + Digits(-n) else Digits(n)
  }

  lemma {:induction false} DigitsValueOf(n: nat)
    ensures DigitsValue(Digits(n)) == n
    decreases n
  {
    var ds := Digits(n);
    if n >= 10 {
      DigitsValueOf(n / 10);
      assert ds[..|ds| - 1] == Digits(n / 10);
    } else {
      assert ds[..|ds| - 1] == [];
    }
  }

  lemma {:induction false} NoUnderscores(s: string)
    requires forall k :: 0 <= k < |s| ==> s[k] != '_'
    ensures WithoutUnderscores(s) == s
    decreases |s|
  {
    if |s| > 0 {
      NoUnderscores(s[1..]);
    }
  }

  /** Stripping a string with no whitespace at either end changes nothing. */
  lemma StripUnchanged(s: string)
    requires s == [] || (!IsSpace(s[0]) && !IsSpace(s[|s| - 1]))
    ensures Strip(s) == s
  {
    var i, j := StripIsSlice(s);
    if |s| > 0 {
      assert i == 0 && j == |s|;
    }
  }

  /** A run of digits reads as its value. */
  lemma ParseUnsignedDigits(ds: string)
    requires |ds| > 0 && forall k :: 0 <= k < |ds| ==> IsDigit(ds[k])
    ensures ParseUnsigned(ds) == Some(DigitsValue(ds))
  {
    assert IsDigitGroups(ds);
    NoUnderscores(ds);
  }

  /** `int(str(n)) == n`: the parser reads back every integer's decimal
      rendering. */
  lemma ParseIntDecimal(n: int)
    ensures ParseInt(Decimal(n)) == Some(n)
  {
    var m: nat := if n < 0 then -n else n;
    var ds := Digits(m);
    var t := Decimal(n);
    assert t[|t| - 1] == ds[|ds| - 1];
    assert !IsSpace(t[0]) && !IsSpace(t[|t| - 1]);
    StripUnchanged(t);
    DigitsValueOf(m);
    ParseUnsignedDigits(ds);
    if n < 0 {
      assert t[0] == '-' && t[1..] == ds;
    } else {
      assert IsDigit(t[0]);
    }
  }
}
