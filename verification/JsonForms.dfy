/**
 What the parser takes for a number, an escape and white space (RFC 8259, sections 2, 6 and 7).
 */
module JsonForms {
  import opened Utf16
  import opened JsonText

  predicate AllDigits(t: Text) {
    forall i :: 0 <= i < |t| ==> 0x30 <= t[i] <= 0x39
  }

  /** `-`, a whole number without leading zeros, a fraction, an exponent; all but the whole number
      may be missing. */
  ghost predicate NumberForm(t: Text, sign: Text, whole: Text, frac: Text, exp: Text) {
    && t == sign + whole + frac + exp
    && (sign == [] || sign == Lit("-"))
    && whole != [] && AllDigits(whole) && (whole[0] == 0x30 ==> |whole| == 1)
    && (frac == [] || FractionForm(frac))
    && (exp == [] || ExponentForm(exp))
  }

  predicate FractionForm(frac: Text) {
    |frac| > 1 && frac[0] == 0x2E && AllDigits(frac[1..])
  }

  predicate ExponentForm(exp: Text) {
    && |exp| > 1 && (exp[0] == 0x45 || exp[0] == 0x65)
    && (AllDigits(exp[1..]) || (|exp| > 2 && (exp[1] == 0x2B || exp[1] == 0x2D) && AllDigits(exp[2..])))
  }

  // ----- digits

  lemma {:induction false} DigitsRun(s: Text)
    ensures AllDigits(s[..DigitsLength(s)])
    ensures DigitsLength(s) < |s| ==> !IsDigit(s[DigitsLength(s)])
  {
    if s != [] && IsDigit(s[0]) {
      DigitsRun(s[1..]);
      assert s[..DigitsLength(s)] == [s[0]] + s[1..][..DigitsLength(s[1..])];
    }
  }

  lemma {:induction false} DigitsStop(a: Text, rest: Text)
    requires AllDigits(a) && (rest == [] || !IsDigit(rest[0]))
    ensures DigitsLength(a + rest) == |a|
  {
    if a == [] {
      assert a + rest == rest;
    } else {
      assert (a + rest)[0] == a[0] && (a + rest)[1..] == a[1..] + rest;
      DigitsStop(a[1..], rest);
    }
  }

  // ----- the parts of a number

  lemma WholeFound(s: Text)
    requires IntegerLength(s) > 0
    ensures var whole := s[..IntegerLength(s)]; AllDigits(whole) && (whole[0] == 0x30 ==> |whole| == 1)
  {
    DigitsRun(s);
  }

  lemma FractionFound(s: Text)
    requires FractionLength(s) > 0
    ensures FractionForm(s[..FractionLength(s)])
  {
    DigitsRun(s[1..]);
    var n := DigitsLength(s[1..]);
    assert s[..n + 1][1..] == s[1..][..n];
  }

  lemma ExponentFound(s: Text)
    requires ExponentLength(s) > 0
    ensures ExponentForm(s[..ExponentLength(s)])
  {
    var sign := if |s| > 1 && (s[1] == PLUS || s[1] == MINUS) then 1 else 0;
    var n := DigitsLength(s[1 + sign..]);
    DigitsRun(s[1 + sign..]);
    var exp := s[..1 + sign + n];
    assert exp[1 + sign..] == s[1 + sign..][..n];
  }

  lemma WholeRead(whole: Text, rest: Text)
    requires whole != [] && AllDigits(whole) && (whole[0] == 0x30 ==> |whole| == 1)
    requires rest == [] || !IsDigit(rest[0])
    ensures IntegerLength(whole + rest) == |whole|
  {
    DigitsStop(whole, rest);
    assert (whole + rest)[0] == whole[0];
  }

  lemma FractionRead(frac: Text, rest: Text)
    requires (frac == [] || FractionForm(frac)) && (rest == [] || IsExponent(rest[0]))
    ensures FractionLength(frac + rest) == |frac|
  {
    if frac == [] {
      assert frac + rest == rest;
    } else {
      DigitsStop(frac[1..], rest);
      assert (frac + rest)[1..] == frac[1..] + rest;
    }
  }

  lemma ExponentRead(exp: Text)
    requires exp == [] || ExponentForm(exp)
    ensures ExponentLength(exp) == |exp|
  {
    if exp != [] {
      if AllDigits(exp[1..]) {
        DigitsStop(exp[1..], []);
        assert exp[1..][0] == exp[1];
        assert exp[1..] + [] == exp[1..];
      } else {
        DigitsStop(exp[2..], []);
        assert exp[2..] + [] == exp[2..];
      }
    }
  }

  lemma SplitThree(t: Text, a: nat, b: nat, c: nat)
    requires a <= b <= c <= |t|
    ensures t == t[..a] + t[a..b] + t[b..c] + t[c..]
  {
  }

  lemma SignFound(t: Text)
    ensures t[..SignLength(t)] == [] || t[..SignLength(t)] == Lit("-")
  {
    assert Lit("-") == [MINUS];
  }

  lemma WholeAt(t: Text, k: nat, a: nat)
    requires k < a <= |t| && IntegerLength(t[k..]) == a - k
    ensures AllDigits(t[k..a]) && (t[k] == 0x30 ==> a == k + 1)
  {
    WholeFound(t[k..]);
    assert t[k..a] == t[k..][..a - k];
  }

  lemma FractionAt(t: Text, a: nat, b: nat)
    requires a < b <= |t| && FractionLength(t[a..]) == b - a
    ensures FractionForm(t[a..b])
  {
    FractionFound(t[a..]);
    assert t[a..b] == t[a..][..b - a];
  }

  lemma ExponentAt(t: Text, b: nat)
    requires b < |t| && ExponentLength(t[b..]) == |t| - b
    ensures ExponentForm(t[b..])
  {
    ExponentFound(t[b..]);
    assert t[b..][..|t| - b] == t[b..];
  }

  lemma NumberSplit(t: Text) returns (sign: Text, whole: Text, frac: Text, exp: Text)
    requires IsNumber(t)
    ensures NumberForm(t, sign, whole, frac, exp)
  {
    var k := SignLength(t);
    var a := k + IntegerLength(t[k..]);
    var b := a + FractionLength(t[a..]);
    sign, whole, frac, exp := t[..k], t[k..a], t[a..b], t[b..];
    SplitThree(t, k, a, b);
    SignFound(t);
    WholeAt(t, k, a);
    if a < b {
      FractionAt(t, a, b);
    }
    if b < |t| {
      ExponentAt(t, b);
    }
  }

  lemma Slices(sign: Text, whole: Text, frac: Text, exp: Text)
    ensures var t, k := sign + whole + frac + exp, |sign|;
      var a := k + |whole|;
      var b := a + |frac|;
      t[..k] == sign && t[k..a] == whole && t[a..b] == frac && t[b..] == exp
  {
  }

  lemma PartsAdd(t: Text, k: nat, a: nat, b: nat)
    requires k < a <= b <= |t| && SignLength(t) == k && IntegerLength(t[k..]) == a - k
    requires FractionLength(t[a..]) == b - a && ExponentLength(t[b..]) == |t| - b
    ensures IsNumber(t)
  {
  }

  lemma WholeThere(t: Text, k: nat, a: nat)
    requires k < a <= |t| && AllDigits(t[k..a]) && (t[k] == 0x30 ==> a == k + 1) && (a < |t| ==> !IsDigit(t[a]))
    ensures IntegerLength(t[k..]) == a - k
  {
    WholeRead(t[k..a], t[a..]);
    assert t[k..] == t[k..a] + t[a..];
  }

  lemma FractionThere(t: Text, a: nat, b: nat)
    requires a <= b <= |t| && (a == b || FractionForm(t[a..b])) && (b < |t| ==> IsExponent(t[b]))
    ensures FractionLength(t[a..]) == b - a && (a < |t| ==> !IsDigit(t[a]))
  {
    FractionRead(t[a..b], t[b..]);
    assert t[a..] == t[a..b] + t[b..];
    assert a < b ==> t[a] == t[a..b][0];
  }

  lemma ExponentThere(t: Text, b: nat)
    requires b <= |t| && (b == |t| || ExponentForm(t[b..]))
    ensures ExponentLength(t[b..]) == |t| - b && (b < |t| ==> IsExponent(t[b]))
  {
    ExponentRead(t[b..]);
  }

  lemma NumberJoined(t: Text, sign: Text, whole: Text, frac: Text, exp: Text)
    requires NumberForm(t, sign, whole, frac, exp)
    ensures IsNumber(t)
  {
    var k, a, b := |sign|, |sign| + |whole|, |sign| + |whole| + |frac|;
    Slices(sign, whole, frac, exp);
    ExponentThere(t, b);
    FractionThere(t, a, b);
    assert t[k] == whole[0];
    WholeThere(t, k, a);
    assert Lit("-") == [MINUS];
    assert t[0] == if sign == [] then whole[0] else t[..k][0];
    PartsAdd(t, k, a, b);
  }

  /** Which texts are numbers. */
  lemma NumberExact(t: Text)
    ensures IsNumber(t) <==> exists sign, whole, frac, exp :: NumberForm(t, sign, whole, frac, exp)
  {
    if IsNumber(t) {
      var sign, whole, frac, exp := NumberSplit(t);
      assert NumberForm(t, sign, whole, frac, exp);
    }
    if sign, whole, frac, exp :| NumberForm(t, sign, whole, frac, exp) {
      NumberJoined(t, sign, whole, frac, exp);
    }
  }

  // ----- escapes and white space

  /** Hexadecimal digits, in either case. */
  lemma HexExact(d: CodeUnit, v: int)
    ensures HexValue(d) == Some(v) <==>
      0 <= v < 16 && (d == Lit("0123456789abcdef")[v] || d == Lit("0123456789ABCDEF")[v])
  {
  }

  /** The eight escapes of one letter. */
  lemma UnescapeExact(letter: CodeUnit, c: CodeUnit)
    ensures Unescape(letter) == Some(c) <==>
      exists k :: 0 <= k < 8 && letter == Lit("\"\\/bfnrt")[k]
        && c == [0x22, 0x5C, 0x2F, 0x08, 0x0C, 0x0A, 0x0D, 0x09][k]
  {
    var letters, units := Lit("\"\\/bfnrt"), [0x22, 0x5C, 0x2F, 0x08, 0x0C, 0x0A, 0x0D, 0x09];
    assert letters == [0x22, 0x5C, 0x2F, 0x62, 0x66, 0x6E, 0x72, 0x74];
    if Unescape(letter) == Some(c) {
      var k := if letter == 0x22 then 0 else if letter == 0x5C then 1 else if letter == 0x2F then 2
               else if letter == 0x62 then 3 else if letter == 0x66 then 4 else if letter == 0x6E then 5
               else if letter == 0x72 then 6 else 7;
      assert letters[k] == letter && units[k] == c;
    }
  }

  /** Four units are white space between tokens, and no others. */
  lemma SpaceExact(c: CodeUnit, s: Text)
    ensures SkipSpace([c] + s) == if c in {0x20, 0x09, 0x0A, 0x0D} then SkipSpace(s) else [c] + s
  {
    assert ([c] + s)[1..] == s;
  }
}
