/**
 The code units of printed JSON: numbers are plain, and the whole text is well formed whatever
 strings it prints, because lone surrogates are escaped.
 */
module JsonUnits {
  import opened Utf16
  import opened JsonText

  predicate IsNumberUnit(c: CodeUnit) {
    IsDigit(c) || c == MINUS || c == PLUS || c == POINT || IsExponent(c)
  }

  lemma {:induction false} DigitUnits(s: Text)
    ensures forall i :: 0 <= i < DigitsLength(s) ==> IsDigit(s[i])
  {
    if s != [] && IsDigit(s[0]) {
      DigitUnits(s[1..]);
      assert forall i :: 1 <= i < DigitsLength(s) ==> s[i] == s[1..][i - 1];
    }
  }

  lemma PartUnits(s: Text)
    ensures forall i :: 0 <= i < SignLength(s) ==> IsNumberUnit(s[i])
    ensures forall i :: 0 <= i < IntegerLength(s) ==> IsNumberUnit(s[i])
    ensures forall i :: 0 <= i < FractionLength(s) ==> IsNumberUnit(s[i])
  {
    DigitUnits(s);
    if s != [] {
      DigitUnits(s[1..]);
      assert forall i :: 1 <= i < |s| ==> s[i] == s[1..][i - 1];
    }
  }

  lemma ExponentUnits(s: Text)
    ensures forall i :: 0 <= i < ExponentLength(s) ==> IsNumberUnit(s[i])
  {
    if s != [] {
      DigitUnits(s[1..]);
      assert forall i :: 1 <= i < |s| ==> s[i] == s[1..][i - 1];
      if |s| > 1 {
        DigitUnits(s[2..]);
        assert forall i :: 2 <= i < |s| ==> s[i] == s[2..][i - 2];
      }
    }
  }

  lemma UnitsFrom(t: Text, k: nat, n: nat)
    requires k + n <= |t| && forall i :: 0 <= i < n ==> IsNumberUnit(t[k..][i])
    ensures forall i :: k <= i < k + n ==> IsNumberUnit(t[i])
  {
    forall i | k <= i < k + n ensures IsNumberUnit(t[i]) {
      assert t[k..][i - k] == t[i];
    }
  }

  lemma IntegerUnits(t: Text, k: nat)
    requires k <= |t|
    ensures forall i :: k <= i < k + IntegerLength(t[k..]) ==> IsNumberUnit(t[i])
  {
    PartUnits(t[k..]);
    UnitsFrom(t, k, IntegerLength(t[k..]));
  }

  lemma FractionUnits(t: Text, k: nat)
    requires k <= |t|
    ensures forall i :: k <= i < k + FractionLength(t[k..]) ==> IsNumberUnit(t[i])
  {
    PartUnits(t[k..]);
    UnitsFrom(t, k, FractionLength(t[k..]));
  }

  lemma NumberUnits(t: Text)
    requires IsNumber(t)
    ensures forall i :: 0 <= i < |t| ==> IsNumberUnit(t[i])
  {
    var sign := SignLength(t);
    var a := sign + IntegerLength(t[sign..]);
    var b := a + FractionLength(t[a..]);
    assert b + ExponentLength(t[b..]) == |t|;
    assert forall i :: 0 <= i < sign ==> IsNumberUnit(t[i]);
    IntegerUnits(t, sign);
    FractionUnits(t, a);
    assert forall i :: b <= i < |t| ==> IsNumberUnit(t[i]) by {
      ExponentUnits(t[b..]);
      UnitsFrom(t, b, |t| - b);
    }
  }

  // ----- printed text is well formed

  lemma HexPlain(n: int)
    requires 0 <= n < 16
    ensures HexDigit(n) < 0x80
  {
  }

  lemma UnitWellFormed(st: Style, c: CodeUnit)
    ensures WellFormed(EscapeUnit(st, c))
  {
    var n := c as int;
    HexPlain(n / 4096);
    HexPlain(n / 256 % 16);
    HexPlain(n / 16 % 16);
    HexPlain(n % 16);
    PlainWellFormed(EscapeUnit(st, c));
  }

  lemma {:induction false} StringWellFormed(st: Style, s: Text)
    ensures WellFormed(EscapeString(st, s))
  {
    if s == [] {
    } else if IsLead(s[0]) && |s| > 1 && IsTrail(s[1]) {
      StringWellFormed(st, s[2..]);
      assert [s[0], s[1]][2..] == [];
      WellFormedAppend([s[0], s[1]], EscapeString(st, s[2..]));
    } else {
      StringWellFormed(st, s[1..]);
      UnitWellFormed(st, s[0]);
      WellFormedAppend(EscapeUnit(st, s[0]), EscapeString(st, s[1..]));
    }
  }

  lemma Around(before: Text, t: Text, after: Text)
    requires NoSurrogates(before) && WellFormed(t) && NoSurrogates(after)
    ensures WellFormed(before + t + after)
  {
    PlainWellFormed(before);
    PlainWellFormed(after);
    WellFormedAppend(before, t);
    WellFormedAppend(before + t, after);
  }

  lemma QuoteWellFormed(st: Style, s: Text)
    ensures WellFormed(Quote(st, s))
  {
    StringWellFormed(st, s);
    Around([QUOTE], EscapeString(st, s), [QUOTE]);
  }

  lemma NumberWellFormed(t: Text)
    requires IsNumber(t)
    ensures WellFormed(t)
  {
    NumberUnits(t);
    PlainWellFormed(t);
  }

  lemma NestedWellFormed(open: CodeUnit, w: Text, inner: Text, x: Text, close: CodeUnit)
    requires open < 0x80 && close < 0x80 && NoSurrogates(w) && NoSurrogates(x) && WellFormed(inner)
    ensures WellFormed([open] + w + inner + x + [close])
  {
    assert ([open] + w + inner + x) + [close] == ([open] + w + inner) + (x + [close]);
    Around([open] + w, inner, x + [close]);
  }

  lemma ListedWellFormed(first: Text, w: Text, tail: Text)
    requires WellFormed(first) && NoSurrogates(w) && WellFormed(tail)
    ensures WellFormed(first + ([COMMA] + w + tail))
  {
    Around([COMMA] + w, tail, []);
    assert [COMMA] + w + tail + [] == [COMMA] + w + tail;
    WellFormedAppend(first, [COMMA] + w + tail);
  }

  lemma MemberWellFormed(key: Text, gap: Text, value: Text)
    requires WellFormed(key) && NoSurrogates(gap) && WellFormed(value)
    ensures WellFormed(key + [COLON] + gap + value)
  {
    assert key + [COLON] + gap + value == key + ([COLON] + gap + value);
    Around([COLON] + gap, value, []);
    assert [COLON] + gap + value + [] == [COLON] + gap + value;
    WellFormedAppend(key, [COLON] + gap + value);
  }

  lemma LiteralsWellFormed()
    ensures WellFormed(Lit("null")) && WellFormed(Lit("true")) && WellFormed(Lit("false"))
  {
    PlainWellFormed(Lit("null"));
    PlainWellFormed(Lit("true"));
    PlainWellFormed(Lit("false"));
  }

  /** Printed JSON holds no lone surrogate, whatever strings the value holds. */
  lemma {:induction false} PrintWellFormed(num: Text -> Text, st: Style, v: Json, depth: nat)
    requires Proper(num, v)
    ensures WellFormed(Print(st, v, depth))
    decreases v
  {
    match v
    case Null => LiteralsWellFormed();
    case Bool(_) => LiteralsWellFormed();
    case Num(t) => NumberWellFormed(t);
    case Str(s) => QuoteWellFormed(st, s);
    case Arr(items) =>
      if items != [] {
        ItemsWellFormed(num, st, items, depth + 1);
      }
      ArrayWellFormed(st, items, depth);
    case Obj(members) =>
      if members != [] {
        MembersWellFormed(num, st, members, depth + 1);
      }
      ObjectWellFormed(st, members, depth);
  }

  lemma ArrayWellFormed(st: Style, items: seq<Json>, depth: nat)
    requires items != [] ==> WellFormed(PrintItems(st, items, depth + 1))
    ensures WellFormed(Print(st, Arr(items), depth))
  {
    if items == [] {
      PlainWellFormed([OPEN_BRACKET, CLOSE_BRACKET]);
    } else {
      NestedWellFormed(OPEN_BRACKET, Break(st, depth + 1), PrintItems(st, items, depth + 1), Break(st, depth),
        CLOSE_BRACKET);
    }
  }

  lemma ObjectWellFormed(st: Style, members: seq<Member>, depth: nat)
    requires members != [] ==> WellFormed(PrintMembers(st, members, depth + 1))
    ensures WellFormed(Print(st, Obj(members), depth))
  {
    if members == [] {
      PlainWellFormed([OPEN_BRACE, CLOSE_BRACE]);
    } else {
      NestedWellFormed(OPEN_BRACE, Break(st, depth + 1), PrintMembers(st, members, depth + 1), Break(st, depth),
        CLOSE_BRACE);
    }
  }

  lemma {:induction false} ItemsWellFormed(num: Text -> Text, st: Style, items: seq<Json>, depth: nat)
    requires items != [] && forall x | x in items :: Proper(num, x)
    ensures WellFormed(PrintItems(st, items, depth))
    decreases items
  {
    var first := Print(st, items[0], depth);
    PrintWellFormed(num, st, items[0], depth);
    if |items| == 1 {
      assert first + [] == first;
    } else {
      ItemsWellFormed(num, st, items[1..], depth);
      ListedWellFormed(first, Break(st, depth), PrintItems(st, items[1..], depth));
    }
  }

  lemma {:induction false} MembersWellFormed(num: Text -> Text, st: Style, members: seq<Member>, depth: nat)
    requires members != [] && forall m | m in members :: Proper(num, m.value)
    ensures WellFormed(PrintMembers(st, members, depth))
    decreases members
  {
    var m, first := members[0], PrintMember(st, members[0], depth);
    PrintWellFormed(num, st, m.value, depth);
    QuoteWellFormed(st, m.key);
    MemberWellFormed(Quote(st, m.key), if st.indent then [SPACE] else [], Print(st, m.value, depth));
    if |members| == 1 {
      assert first + [] == first;
    } else {
      MembersWellFormed(num, st, members[1..], depth);
      ListedWellFormed(first, Break(st, depth), PrintMembers(st, members[1..], depth));
    }
  }
}
