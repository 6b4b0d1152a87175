/**
 Natural numbers as JavaScript prints them.
 */
module Decimals {
  import opened Utf16
  import opened JsonText

  /** `String(n)`. */
  function Decimal(n: nat): (t: Text)
    ensures |t| > 0
  {
    if n < 10 then [(0x30 + n) as CodeUnit]
    else Decimal(n / 10) + [(0x30 + n % 10) as CodeUnit]
  }

  lemma {:induction false} DecimalInjective(m: nat, n: nat)
    requires Decimal(m) == Decimal(n)
    ensures m == n
  {
    var a, b := Decimal(m), Decimal(n);
    assert a[|a| - 1] == (0x30 + m % 10) as CodeUnit;
    assert b[|b| - 1] == (0x30 + n % 10) as CodeUnit;
    if m >= 10 && n >= 10 {
      assert a[..|a| - 1] == Decimal(m / 10) && b[..|b| - 1] == Decimal(n / 10);
      DecimalInjective(m / 10, n / 10);
    }
  }

  lemma {:induction false} DigitsAppend(t: Text, c: CodeUnit)
    requires DigitsLength(t) == |t| && IsDigit(c)
    ensures DigitsLength(t + [c]) == |t| + 1
  {
    if t == [] {
      assert t + [c] == [c];
    } else {
      assert (t + [c])[0] == t[0] && (t + [c])[1..] == t[1..] + [c];
      DigitsAppend(t[1..], c);
    }
  }

  lemma {:induction false} DecimalDigits(n: nat)
    ensures DigitsLength(Decimal(n)) == |Decimal(n)|
    ensures IsDigit(Decimal(n)[0]) && (Decimal(n)[0] == ZERO ==> n == 0)
  {
    if n >= 10 {
      DecimalDigits(n / 10);
      DigitsAppend(Decimal(n / 10), (0x30 + n % 10) as CodeUnit);
    }
  }

  lemma DecimalIsNumber(n: nat)
    ensures IsNumber(Decimal(n))
  {
    DecimalDigits(n);
    var t := Decimal(n);
    assert t[0] != MINUS;
    assert t[0..] == t;
    assert IntegerLength(t) == |t|;
    assert t[|t|..] == [];
  }
}
