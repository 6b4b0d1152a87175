/**
 `JSON.parse` reads back what `JSON.stringify` printed, in either style and at any
 indentation; hence printing is injective, and escaping markup in printed text loses nothing.
 */
module JsonRoundTrip {
  import opened Utf16
  import opened JsonText

  // ----- white space

  ghost predicate AllSpace(w: Text) {
    forall i :: 0 <= i < |w| ==> IsSpace(w[i])
  }

  lemma {:induction false} SkipSpaceOver(w: Text, s: Text)
    requires AllSpace(w)
    ensures SkipSpace(w + s) == SkipSpace(s)
  {
    if w == [] {
      assert w + s == s;
    } else {
      assert (w + s)[1..] == w[1..] + s;
      SkipSpaceOver(w[1..], s);
    }
  }

  lemma SkipSpaceStops(w: Text, s: Text)
    requires AllSpace(w) && s != [] && !IsSpace(s[0])
    ensures SkipSpace(w + s) == s
  {
    SkipSpaceOver(w, s);
  }

  lemma ParseOverSpace(num: Text -> Text, w: Text, s: Text)
    requires AllSpace(w)
    ensures ParseValue(num, w + s) == ParseValue(num, s)
    ensures ParseMember(num, w + s) == ParseMember(num, s)
  {
    SkipSpaceOver(w, s);
  }

  lemma ItemsOverSpace(num: Text -> Text, w: Text, s: Text)
    requires AllSpace(w)
    ensures ParseItems(num, w + s) == ParseItems(num, s)
    ensures ParseMembers(num, w + s) == ParseMembers(num, s)
  {
    ParseOverSpace(num, w, s);
  }

  // ----- strings

  lemma HexDigitValue(n: int)
    requires 0 <= n < 16
    ensures HexValue(HexDigit(n)) == Some(n)
  {
  }

  lemma HexDigits(a: int, b: int, c: int, d: int, tail: Text)
    requires 0 <= a < 16 && 0 <= b < 16 && 0 <= c < 16 && 0 <= d < 16
    ensures ParseHex([HexDigit(a), HexDigit(b), HexDigit(c), HexDigit(d)] + tail)
         == Some((4096 * a + 256 * b + 16 * c + d) as CodeUnit)
  {
    HexDigitValue(a);
    HexDigitValue(b);
    HexDigitValue(c);
    HexDigitValue(d);
    var s := [HexDigit(a), HexDigit(b), HexDigit(c), HexDigit(d)] + tail;
    assert s[0] == HexDigit(a) && s[1] == HexDigit(b) && s[2] == HexDigit(c) && s[3] == HexDigit(d);
  }

  lemma HexPlaces(n: int)
    requires 0 <= n < 0x1_0000
    ensures 4096 * (n / 4096) + 256 * (n / 256 % 16) + 16 * (n / 16 % 16) + n % 16 == n
  {
    var tens, hundreds := n / 16, n / 256;
    assert tens / 16 == hundreds && hundreds / 16 == n / 4096;
    assert n == 16 * tens + n % 16;
    assert tens == 16 * hundreds + tens % 16;
    assert hundreds == 16 * (n / 4096) + hundreds % 16;
  }

  lemma HexRoundTrip(c: CodeUnit, tail: Text)
    ensures ParseHex((UnicodeEscape(c) + tail)[2..]) == Some(c)
  {
    var n := c as int;
    HexPlaces(n);
    var digits := [HexDigit(n / 4096), HexDigit(n / 256 % 16), HexDigit(n / 16 % 16), HexDigit(n % 16)];
    assert (UnicodeEscape(c) + tail)[2..] == digits + tail;
    HexDigits(n / 4096, n / 256 % 16, n / 16 % 16, n % 16, tail);
  }

  lemma ShortEscapeRoundTrip(c: CodeUnit)
    requires ShortEscape(c).Some?
    ensures ShortEscape(c).value != LETTER_U && Unescape(ShortEscape(c).value) == Some(c)
  {
  }

  lemma RawUnit(c: CodeUnit, tail: Text)
    requires c >= 0x20 && c != QUOTE && c != BACKSLASH
    ensures ParseString([c] + tail) == Prepend(c, ParseString(tail))
  {
    assert ([c] + tail)[1..] == tail;
  }

  lemma UnitRoundTrip(st: Style, c: CodeUnit, tail: Text)
    ensures ParseString(EscapeUnit(st, c) + tail) == Prepend(c, ParseString(tail))
  {
    var e := EscapeUnit(st, c);
    assert (e + tail)[|e|..] == tail;
    if ShortEscape(c).Some? {
      ShortEscapeRoundTrip(c);
    } else if |e| == 6 {
      HexRoundTrip(c, tail);
    } else {
      RawUnit(c, tail);
    }
  }

  lemma {:induction false} StringRoundTrip(st: Style, s: Text, rest: Text)
    ensures ParseString(EscapeString(st, s) + ([QUOTE] + rest)) == Ok(s, rest)
  {
    var close := [QUOTE] + rest;
    if s == [] {
      assert EscapeString(st, s) + close == close;
      assert close[1..] == rest;
    } else if IsLead(s[0]) && |s| > 1 && IsTrail(s[1]) {
      StringRoundTrip(st, s[2..], rest);
      RawPair(s[0], s[1], EscapeString(st, s[2..]), close);
      assert s == [s[0]] + ([s[1]] + s[2..]);
    } else {
      StringRoundTrip(st, s[1..], rest);
      Associate(EscapeUnit(st, s[0]), EscapeString(st, s[1..]), close);
      UnitRoundTrip(st, s[0], EscapeString(st, s[1..]) + close);
      assert s == [s[0]] + s[1..];
    }
  }

  lemma Associate(a: Text, b: Text, c: Text)
    ensures (a + b) + c == a + (b + c)
  {
  }

  lemma RawPair(c: CodeUnit, d: CodeUnit, tail: Text, close: Text)
    requires IsLead(c) && IsTrail(d)
    ensures ParseString([c, d] + tail + close) == Prepend(c, Prepend(d, ParseString(tail + close)))
  {
    assert [c, d] + tail + close == [c] + ([d] + (tail + close));
    RawUnit(d, tail + close);
    RawUnit(c, [d] + (tail + close));
  }

  // ----- numbers

  /** What may follow a printed value: the end, a comma, a closer or white space. */
  predicate Delimits(rest: Text) {
    rest == [] || rest[0] == COMMA || rest[0] == CLOSE_BRACKET || rest[0] == CLOSE_BRACE || IsSpace(rest[0])
  }

  lemma {:induction false} DigitsEnd(a: Text, rest: Text)
    requires Delimits(rest)
    ensures DigitsLength(a + rest) == DigitsLength(a)
  {
    if a == [] {
      assert a + rest == rest;
      assert !IsDigit(COMMA) && !IsDigit(CLOSE_BRACKET) && !IsDigit(CLOSE_BRACE);
      assert rest == [] || !IsDigit(rest[0]);
    } else {
      assert (a + rest)[0] == a[0] && (a + rest)[1..] == a[1..] + rest;
      DigitsEnd(a[1..], rest);
    }
  }

  lemma PartsEnd(a: Text, rest: Text)
    requires Delimits(rest)
    ensures SignLength(a + rest) == SignLength(a)
    ensures IntegerLength(a + rest) == IntegerLength(a)
    ensures FractionLength(a + rest) == FractionLength(a)
  {
    DigitsEnd(a, rest);
    if a == [] {
      assert a + rest == rest;
    } else {
      assert (a + rest)[1..] == a[1..] + rest;
      DigitsEnd(a[1..], rest);
    }
  }

  lemma ExponentEnds(a: Text, rest: Text)
    requires Delimits(rest)
    ensures ExponentLength(a + rest) == ExponentLength(a)
  {
    if a == [] {
      assert a + rest == rest;
    } else {
      assert (a + rest)[1..] == a[1..] + rest;
      DigitsEnd(a[1..], rest);
      if |a| > 1 {
        assert (a + rest)[2..] == a[2..] + rest;
        DigitsEnd(a[2..], rest);
      } else {
        assert a[1..] + rest == rest;
      }
    }
  }

  lemma Beyond(t: Text, rest: Text, k: nat)
    requires k <= |t|
    ensures (t + rest)[k..] == t[k..] + rest
  {
  }

  lemma NumberEnds(t: Text, rest: Text)
    requires Delimits(rest)
    ensures NumberLength(t + rest) == NumberLength(t)
  {
    PartsEnd(t, rest);
    var sign := SignLength(t);
    Beyond(t, rest, sign);
    PartsEnd(t[sign..], rest);
    var a := sign + IntegerLength(t[sign..]);
    Beyond(t, rest, a);
    PartsEnd(t[a..], rest);
    var b := a + FractionLength(t[a..]);
    Beyond(t, rest, b);
    ExponentEnds(t[b..], rest);
  }

  lemma NumberStart(t: Text)
    requires IsNumber(t)
    ensures IsDigit(t[0]) || t[0] == MINUS
  {
  }

  // ----- values

  lemma Opening(st: Style, v: Json, depth: nat, num: Text -> Text)
    requires Proper(num, v)
    ensures var p := Print(st, v, depth);
      && p != [] && !IsSpace(p[0]) && p[0] != CLOSE_BRACKET && p[0] != CLOSE_BRACE && p[0] != COMMA
  {
    if v.Num? {
      NumberStart(v.text);
    }
  }

  lemma BreakIsSpace(st: Style, depth: nat)
    ensures AllSpace(Break(st, depth))
  {
  }

  lemma LiteralRoundTrip(num: Text -> Text, st: Style, v: Json, depth: nat, rest: Text)
    requires v.Null? || v.Bool?
    ensures ParseValue(num, Print(st, v, depth) + rest) == Ok(v, rest)
  {
    var p := Print(st, v, depth);
    var s := p + rest;
    assert s[0] == p[0] && s[1] == p[1];
    assert s[|p|..] == rest;
    assert p <= s;
    StepPlain(num, s);
  }

  lemma NotLiteral(s: Text)
    requires s != [] && (IsDigit(s[0]) || s[0] == MINUS)
    ensures !(Lit("null") <= s) && !(Lit("true") <= s) && !(Lit("false") <= s)
  {
    assert Lit("null")[0] != s[0] && Lit("true")[0] != s[0] && Lit("false")[0] != s[0];
  }

  lemma StepPlain(num: Text -> Text, s: Text)
    requires s != [] && !IsSpace(s[0]) && s[0] != QUOTE && s[0] != OPEN_BRACKET && s[0] != OPEN_BRACE
    ensures ParseValue(num, s) == ParsePlain(num, s)
  {
    assert SkipSpace(s) == s;
  }

  lemma NumberRoundTrip(num: Text -> Text, t: Text, rest: Text)
    requires IsNumber(t) && num(t) == t && Delimits(rest)
    ensures ParseValue(num, t + rest) == Ok(Num(t), rest)
  {
    NumberStart(t);
    NumberEnds(t, rest);
    assert (t + rest)[0] == t[0] && (t + rest)[..|t|] == t;
    Beyond(t, rest, |t|);
    assert t[|t|..] + rest == rest;
    NotLiteral(t + rest);
    StepPlain(num, t + rest);
  }

  // one step of the parser at a time

  lemma StepString(num: Text -> Text, tail: Text, str: Text, rest: Text)
    requires ParseString(tail) == Ok(str, rest)
    ensures ParseValue(num, [QUOTE] + tail) == Ok(Str(str), rest)
  {
    assert ([QUOTE] + tail)[1..] == tail;
  }

  lemma StepArray(num: Text -> Text, w: Text, inner: Text, items: seq<Json>, rest: Text)
    requires AllSpace(w) && inner != [] && !IsSpace(inner[0]) && inner[0] != CLOSE_BRACKET
    requires ParseItems(num, inner) == Ok(items, rest)
    ensures ParseValue(num, [OPEN_BRACKET] + (w + inner)) == Ok(Arr(items), rest)
  {
    assert ([OPEN_BRACKET] + (w + inner))[1..] == w + inner;
    SkipSpaceStops(w, inner);
    ItemsOverSpace(num, w, inner);
  }

  lemma StepObject(num: Text -> Text, w: Text, inner: Text, members: seq<Member>, rest: Text)
    requires AllSpace(w) && inner != [] && !IsSpace(inner[0]) && inner[0] != CLOSE_BRACE
    requires ParseMembers(num, inner) == Ok(members, rest)
    ensures ParseValue(num, [OPEN_BRACE] + (w + inner)) == Ok(Obj(Build(members)), rest)
  {
    assert ([OPEN_BRACE] + (w + inner))[1..] == w + inner;
    SkipSpaceStops(w, inner);
    ItemsOverSpace(num, w, inner);
  }

  lemma StepLastItem(num: Text -> Text, s: Text, v: Json, w: Text, rest: Text)
    requires AllSpace(w) && ParseValue(num, s) == Ok(v, w + ([CLOSE_BRACKET] + rest))
    ensures ParseItems(num, s) == Ok([v], rest)
  {
    SkipSpaceStops(w, [CLOSE_BRACKET] + rest);
    assert ([CLOSE_BRACKET] + rest)[1..] == rest;
  }

  lemma StepItem(num: Text -> Text, s: Text, v: Json, w: Text, next: Text, items: seq<Json>, rest: Text)
    requires AllSpace(w) && ParseValue(num, s) == Ok(v, [COMMA] + (w + next))
    requires ParseItems(num, next) == Ok(items, rest)
    ensures ParseItems(num, s) == Ok([v] + items, rest)
  {
    var t := [COMMA] + (w + next);
    assert SkipSpace(t) == t && t[1..] == w + next;
    ItemsOverSpace(num, w, next);
  }

  lemma StepLastMember(num: Text -> Text, s: Text, m: Member, w: Text, rest: Text)
    requires AllSpace(w) && ParseMember(num, s) == Ok(m, w + ([CLOSE_BRACE] + rest))
    ensures ParseMembers(num, s) == Ok([m], rest)
  {
    SkipSpaceStops(w, [CLOSE_BRACE] + rest);
    assert ([CLOSE_BRACE] + rest)[1..] == rest;
  }

  lemma StepMember(num: Text -> Text, s: Text, m: Member, w: Text, next: Text, members: seq<Member>, rest: Text)
    requires AllSpace(w) && ParseMember(num, s) == Ok(m, [COMMA] + (w + next))
    requires ParseMembers(num, next) == Ok(members, rest)
    ensures ParseMembers(num, s) == Ok([m] + members, rest)
  {
    var t := [COMMA] + (w + next);
    assert SkipSpace(t) == t && t[1..] == w + next;
    ItemsOverSpace(num, w, next);
  }

  lemma StepKey(num: Text -> Text, tail: Text, key: Text, gap: Text, value: Text, v: Json, rest: Text)
    requires AllSpace(gap) && ParseString(tail) == Ok(key, [COLON] + (gap + value))
    requires ParseValue(num, value) == Ok(v, rest)
    ensures ParseMember(num, [QUOTE] + tail) == Ok(Member(key, v), rest)
  {
    assert ([QUOTE] + tail)[1..] == tail;
    var afterKey := [COLON] + (gap + value);
    assert SkipSpace(afterKey) == afterKey && afterKey[1..] == gap + value;
    ParseOverSpace(num, gap, value);
  }

  // how the printed text is put together

  lemma Bracketed(open: CodeUnit, a: Text, inner: Text, b: Text, close: CodeUnit, rest: Text)
    ensures [open] + a + inner + b + [close] + rest == [open] + (a + (inner + (b + ([close] + rest))))
  {
  }

  lemma Listed(first: Text, w: Text, others: Text, close: Text)
    ensures (first + ([COMMA] + w + others)) + close == first + ([COMMA] + (w + (others + close)))
  {
  }

  lemma Quoted(e: Text, rest: Text)
    ensures ([QUOTE] + e + [QUOTE]) + rest == [QUOTE] + (e + ([QUOTE] + rest))
  {
  }

  lemma Keyed(e: Text, gap: Text, value: Text, rest: Text)
    ensures ([QUOTE] + e + [QUOTE]) + [COLON] + gap + value + rest
         == [QUOTE] + (e + ([QUOTE] + ([COLON] + (gap + (value + rest)))))
  {
  }

  lemma ArrayText(st: Style, items: seq<Json>, depth: nat)
    requires items != []
    ensures Print(st, Arr(items), depth)
         == [OPEN_BRACKET] + Break(st, depth + 1) + PrintItems(st, items, depth + 1)
            + Break(st, depth) + [CLOSE_BRACKET]
  {
  }

  lemma ObjectText(st: Style, members: seq<Member>, depth: nat)
    requires members != []
    ensures Print(st, Obj(members), depth)
         == [OPEN_BRACE] + Break(st, depth + 1) + PrintMembers(st, members, depth + 1)
            + Break(st, depth) + [CLOSE_BRACE]
  {
  }

  lemma FramedArray(num: Text -> Text, open: Text, p: Text, w: Text, items: seq<Json>, rest: Text)
    requires AllSpace(open) && p != [] && !IsSpace(p[0]) && p[0] != CLOSE_BRACKET
    requires ParseItems(num, p + (w + ([CLOSE_BRACKET] + rest))) == Ok(items, rest)
    ensures ParseValue(num, [OPEN_BRACKET] + open + p + w + [CLOSE_BRACKET] + rest) == Ok(Arr(items), rest)
  {
    StepArray(num, open, p + (w + ([CLOSE_BRACKET] + rest)), items, rest);
    Bracketed(OPEN_BRACKET, open, p, w, CLOSE_BRACKET, rest);
  }

  lemma FramedObject(num: Text -> Text, open: Text, p: Text, w: Text, members: seq<Member>, rest: Text)
    requires AllSpace(open) && p != [] && !IsSpace(p[0]) && p[0] != CLOSE_BRACE
    requires ParseMembers(num, p + (w + ([CLOSE_BRACE] + rest))) == Ok(members, rest)
    ensures ParseValue(num, [OPEN_BRACE] + open + p + w + [CLOSE_BRACE] + rest) == Ok(Obj(Build(members)), rest)
  {
    StepObject(num, open, p + (w + ([CLOSE_BRACE] + rest)), members, rest);
    Bracketed(OPEN_BRACE, open, p, w, CLOSE_BRACE, rest);
  }

  /** A non-empty array, once its items are read back. */
  lemma ArrayReadBack(num: Text -> Text, st: Style, items: seq<Json>, depth: nat, rest: Text)
    requires items != [] && Proper(num, items[0])
    requires ParseItems(num, PrintItems(st, items, depth + 1) + (Break(st, depth) + ([CLOSE_BRACKET] + rest))) ==
      Ok(items, rest)
    ensures ParseValue(num, Print(st, Arr(items), depth) + rest) == Ok(Arr(items), rest)
  {
    ItemsOpening(num, st, items, depth + 1);
    BreakIsSpace(st, depth + 1);
    FramedArray(num, Break(st, depth + 1), PrintItems(st, items, depth + 1), Break(st, depth), items, rest);
    ArrayText(st, items, depth);
  }

  lemma ItemsOpening(num: Text -> Text, st: Style, items: seq<Json>, depth: nat)
    requires items != [] && Proper(num, items[0])
    ensures var p := PrintItems(st, items, depth); p != [] && !IsSpace(p[0]) && p[0] != CLOSE_BRACKET
  {
    Opening(st, items[0], depth, num);
  }

  lemma MembersOpening(st: Style, members: seq<Member>, depth: nat)
    requires members != []
    ensures PrintMembers(st, members, depth) != [] && PrintMembers(st, members, depth)[0] == QUOTE
  {
    assert PrintMember(st, members[0], depth)[0] == QUOTE;
  }

  /** A non-empty object, once its members are read back. */
  lemma ObjectReadBack(num: Text -> Text, st: Style, members: seq<Member>, depth: nat, rest: Text)
    requires members != [] && OwnOrdered(members)
    requires ParseMembers(num, PrintMembers(st, members, depth + 1) + (Break(st, depth) + ([CLOSE_BRACE] + rest))) ==
      Ok(members, rest)
    ensures ParseValue(num, Print(st, Obj(members), depth) + rest) == Ok(Obj(members), rest)
  {
    MembersOpening(st, members, depth + 1);
    BreakIsSpace(st, depth + 1);
    BuildOrdered(members);
    FramedObject(num, Break(st, depth + 1), PrintMembers(st, members, depth + 1), Break(st, depth), members, rest);
    ObjectText(st, members, depth);
  }

  lemma StringReadBack(num: Text -> Text, st: Style, s: Text, depth: nat, rest: Text)
    ensures ParseValue(num, Print(st, Str(s), depth) + rest) == Ok(Str(s), rest)
  {
    StringRoundTrip(st, s, rest);
    StepString(num, EscapeString(st, s) + ([QUOTE] + rest), s, rest);
    Quoted(EscapeString(st, s), rest);
  }

  /** Parsing a printed value, followed by anything that can follow one, gives it back. */
  lemma {:induction false} ValueRoundTrip(num: Text -> Text, st: Style, v: Json, depth: nat, rest: Text)
    requires Proper(num, v) && Delimits(rest)
    ensures ParseValue(num, Print(st, v, depth) + rest) == Ok(v, rest)
    decreases v
  {
    match v
    case Null => LiteralRoundTrip(num, st, v, depth, rest);
    case Bool(_) => LiteralRoundTrip(num, st, v, depth, rest);
    case Num(t) => NumberRoundTrip(num, t, rest);
    case Str(s) => StringReadBack(num, st, s, depth, rest);
    case Arr(items) =>
      if items == [] {
        EmptyRoundTrip(num, st, v, depth, rest);
      } else {
        ItemsRoundTrip(num, st, items, depth + 1, Break(st, depth), rest);
        ArrayReadBack(num, st, items, depth, rest);
      }
    case Obj(members) =>
      if members == [] {
        EmptyRoundTrip(num, st, v, depth, rest);
      } else {
        MembersRoundTrip(num, st, members, depth + 1, Break(st, depth), rest);
        ObjectReadBack(num, st, members, depth, rest);
      }
  }

  lemma EmptyRoundTrip(num: Text -> Text, st: Style, v: Json, depth: nat, rest: Text)
    requires v == Arr([]) || v == Obj([])
    ensures ParseValue(num, Print(st, v, depth) + rest) == Ok(v, rest)
  {
    var s := Print(st, v, depth) + rest;
    assert s[1..][1..] == rest;
  }

  lemma ItemsText(st: Style, items: seq<Json>, depth: nat)
    requires |items| > 1
    ensures PrintItems(st, items, depth)
         == Print(st, items[0], depth) + ([COMMA] + Break(st, depth) + PrintItems(st, items[1..], depth))
  {
  }

  /** One more item in front of items that are read back. */
  lemma ItemReadBack(num: Text -> Text, st: Style, items: seq<Json>, depth: nat, close: Text, rest: Text)
    requires |items| > 1
    requires ParseItems(num, PrintItems(st, items[1..], depth) + close) == Ok(items[1..], rest)
    requires var next := Break(st, depth) + (PrintItems(st, items[1..], depth) + close);
      ParseValue(num, Print(st, items[0], depth) + ([COMMA] + next)) == Ok(items[0], [COMMA] + next)
    ensures ParseItems(num, PrintItems(st, items, depth) + close) == Ok(items, rest)
  {
    BreakIsSpace(st, depth);
    ItemsText(st, items, depth);
    ListedItem(num, Print(st, items[0], depth), items[0], Break(st, depth), PrintItems(st, items[1..], depth), close,
      items[1..], rest);
    assert items == [items[0]] + items[1..];
  }

  lemma ListedItem(num: Text -> Text, first: Text, v: Json, w: Text, others: Text, close: Text,
                   items: seq<Json>, rest: Text)
    requires AllSpace(w) && ParseItems(num, others + close) == Ok(items, rest)
    requires ParseValue(num, first + ([COMMA] + (w + (others + close)))) == Ok(v, [COMMA] + (w + (others + close)))
    ensures ParseItems(num, first + ([COMMA] + w + others) + close) == Ok([v] + items, rest)
  {
    Listed(first, w, others, close);
    StepItem(num, first + ([COMMA] + w + others) + close, v, w, others + close, items, rest);
  }

  lemma {:induction false} ItemsRoundTrip(num: Text -> Text, st: Style, items: seq<Json>, depth: nat, w: Text,
      rest: Text)
    requires items != [] && (forall x | x in items :: Proper(num, x)) && AllSpace(w)
    ensures ParseItems(num, PrintItems(st, items, depth) + (w + ([CLOSE_BRACKET] + rest))) == Ok(items, rest)
    decreases items
  {
    var close := w + ([CLOSE_BRACKET] + rest);
    if |items| == 1 {
      ValueRoundTrip(num, st, items[0], depth, close);
      StepLastItem(num, Print(st, items[0], depth) + close, items[0], w, rest);
      assert PrintItems(st, items, depth) == Print(st, items[0], depth) && items == [items[0]];
    } else {
      ValueRoundTrip(num, st, items[0], depth, [COMMA] +
        (Break(st, depth) + (PrintItems(st, items[1..], depth) + close)));
      ItemsRoundTrip(num, st, items[1..], depth, w, rest);
      ItemReadBack(num, st, items, depth, close, rest);
    }
  }

  lemma {:induction false} MemberRoundTrip(num: Text -> Text, st: Style, m: Member, depth: nat, rest: Text)
    requires Proper(num, m.value) && Delimits(rest)
    ensures ParseMember(num, PrintMember(st, m, depth) + rest) == Ok(m, rest)
    decreases m
  {
    var gap: Text := if st.indent then [SPACE] else [];
    var e, value := EscapeString(st, m.key), Print(st, m.value, depth);
    var afterKey := [COLON] + (gap + (value + rest));
    StringRoundTrip(st, m.key, afterKey);
    ValueRoundTrip(num, st, m.value, depth, rest);
    StepKey(num, e + ([QUOTE] + afterKey), m.key, gap, value + rest, m.value, rest);
    Keyed(e, gap, value, rest);
  }

  lemma MembersText(st: Style, members: seq<Member>, depth: nat)
    requires |members| > 1
    ensures PrintMembers(st, members, depth)
         == PrintMember(st, members[0], depth) + ([COMMA] + Break(st, depth) + PrintMembers(st, members[1..], depth))
  {
  }

  lemma MemberReadBack(num: Text -> Text, st: Style, members: seq<Member>, depth: nat, close: Text, rest: Text)
    requires |members| > 1
    requires ParseMembers(num, PrintMembers(st, members[1..], depth) + close) == Ok(members[1..], rest)
    requires var next := Break(st, depth) + (PrintMembers(st, members[1..], depth) + close);
      ParseMember(num, PrintMember(st, members[0], depth) + ([COMMA] + next)) == Ok(members[0], [COMMA] + next)
    ensures ParseMembers(num, PrintMembers(st, members, depth) + close) == Ok(members, rest)
  {
    BreakIsSpace(st, depth);
    MembersText(st, members, depth);
    ListedMember(num, PrintMember(st, members[0], depth), members[0], Break(st, depth),
      PrintMembers(st, members[1..], depth), close, members[1..], rest);
    assert members == [members[0]] + members[1..];
  }

  lemma ListedMember(num: Text -> Text, first: Text, m: Member, w: Text, others: Text, close: Text,
                     members: seq<Member>, rest: Text)
    requires AllSpace(w) && ParseMembers(num, others + close) == Ok(members, rest)
    requires ParseMember(num, first + ([COMMA] + (w + (others + close)))) == Ok(m, [COMMA] + (w + (others + close)))
    ensures ParseMembers(num, first + ([COMMA] + w + others) + close) == Ok([m] + members, rest)
  {
    Listed(first, w, others, close);
    StepMember(num, first + ([COMMA] + w + others) + close, m, w, others + close, members, rest);
  }

  lemma {:induction false} MembersRoundTrip(num: Text -> Text, st: Style, members: seq<Member>, depth: nat, w: Text,
      rest: Text)
    requires members != [] && (forall m | m in members :: Proper(num, m.value)) && AllSpace(w)
    ensures ParseMembers(num, PrintMembers(st, members, depth) + (w + ([CLOSE_BRACE] + rest))) == Ok(members, rest)
    decreases members
  {
    var close := w + ([CLOSE_BRACE] + rest);
    if |members| == 1 {
      MemberRoundTrip(num, st, members[0], depth, close);
      StepLastMember(num, PrintMember(st, members[0], depth) + close, members[0], w, rest);
      assert PrintMembers(st, members, depth) == PrintMember(st, members[0], depth) && members == [members[0]];
    } else {
      MemberRoundTrip(num, st, members[0], depth, [COMMA] +
        (Break(st, depth) + (PrintMembers(st, members[1..], depth) + close)));
      MembersRoundTrip(num, st, members[1..], depth, w, rest);
      MemberReadBack(num, st, members, depth, close, rest);
    }
  }

  /** `JSON.parse(JSON.stringify(v))` is v, in either style. */
  lemma RoundTrip(num: Text -> Text, st: Style, v: Json)
    requires Proper(num, v)
    ensures Parse(num, Print(st, v, 0)) == Some(v)
  {
    ValueRoundTrip(num, st, v, 0, []);
    assert Print(st, v, 0) + [] == Print(st, v, 0);
  }

  /** Two values with one printed text are one value. */
  lemma PrintInjective(num: Text -> Text, st: Style, v: Json, w: Json)
    requires Proper(num, v) && Proper(num, w) && Print(st, v, 0) == Print(st, w, 0)
    ensures v == w
  {
    RoundTrip(num, st, v);
    RoundTrip(num, st, w);
  }
}
