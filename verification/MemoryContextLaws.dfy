/**
 The rendered region loses nothing and cannot be forged: the escaped body parses to the
 packet, holds no structural character, and each marker stands in the text exactly once.
 */
module MemoryContextLaws {
  import opened Utf16
  import opened JsonText
  import opened JsonRoundTrip
  import opened JsonUnits
  import opened MemoryContext

  // ----- five replacements are one pass

  /** Each structural character as its escape, everything else as it is. */
  function Mark(t: Text): Text {
    if t == [] then [] else (if IsMarkup(t[0]) then UnicodeEscape(t[0]) else [t[0]]) + Mark(t[1..])
  }

  predicate NoMarkup(t: Text) {
    forall i :: 0 <= i < |t| ==> !IsMarkup(t[i])
  }

  lemma {:induction false} ReplaceAppend(a: Text, b: Text, c: CodeUnit, with: Text)
    ensures ReplaceAll(a + b, c, with) == ReplaceAll(a, c, with) + ReplaceAll(b, c, with)
  {
    if a == [] {
      assert a + b == b;
    } else {
      assert (a + b)[0] == a[0] && (a + b)[1..] == a[1..] + b;
      ReplaceAppend(a[1..], b, c, with);
    }
  }

  lemma {:induction false} ReplaceAbsent(t: Text, c: CodeUnit, with: Text)
    requires c !in t
    ensures ReplaceAll(t, c, with) == t
  {
    if t != [] {
      assert t == [t[0]] + t[1..];
      ReplaceAbsent(t[1..], c, with);
    }
  }

  lemma EscapeAppend(a: Text, b: Text)
    ensures EscapeStructuralCharacters(a + b) == EscapeStructuralCharacters(a) + EscapeStructuralCharacters(b)
  {
    ReplaceAppend(a, b, 0x26, Lit("\\u0026"));
    var a1, b1 := ReplaceAll(a, 0x26, Lit("\\u0026")), ReplaceAll(b, 0x26, Lit("\\u0026"));
    ReplaceAppend(a1, b1, 0x3C, Lit("\\u003c"));
    var a2, b2 := ReplaceAll(a1, 0x3C, Lit("\\u003c")), ReplaceAll(b1, 0x3C, Lit("\\u003c"));
    ReplaceAppend(a2, b2, 0x3E, Lit("\\u003e"));
    var a3, b3 := ReplaceAll(a2, 0x3E, Lit("\\u003e")), ReplaceAll(b2, 0x3E, Lit("\\u003e"));
    ReplaceAppend(a3, b3, 0x2028, Lit("\\u2028"));
    var a4, b4 := ReplaceAll(a3, 0x2028, Lit("\\u2028")), ReplaceAll(b3, 0x2028, Lit("\\u2028"));
    ReplaceAppend(a4, b4, 0x2029, Lit("\\u2029"));
  }

  lemma EscapeTexts()
    ensures Lit("\\u0026") == UnicodeEscape(0x26) && Lit("\\u003c") == UnicodeEscape(0x3C)
    ensures Lit("\\u003e") == UnicodeEscape(0x3E) && Lit("\\u2028") == UnicodeEscape(0x2028)
    ensures Lit("\\u2029") == UnicodeEscape(0x2029)
  {
  }

  lemma HexNotMarkup(n: int)
    requires 0 <= n < 16
    ensures !IsMarkup(HexDigit(n))
  {
  }

  lemma EscapeHasNoMarkup(c: CodeUnit)
    ensures NoMarkup(UnicodeEscape(c))
  {
    var n := c as int;
    HexNotMarkup(n / 4096);
    HexNotMarkup(n / 256 % 16);
    HexNotMarkup(n / 16 % 16);
    HexNotMarkup(n % 16);
  }

  lemma EscapePlain(t: Text)
    requires NoMarkup(t)
    ensures EscapeStructuralCharacters(t) == t
  {
    ReplaceAbsent(t, 0x26, Lit("\\u0026"));
    ReplaceAbsent(t, 0x3C, Lit("\\u003c"));
    ReplaceAbsent(t, 0x3E, Lit("\\u003e"));
    ReplaceAbsent(t, 0x2028, Lit("\\u2028"));
    ReplaceAbsent(t, 0x2029, Lit("\\u2029"));
  }

  /** One replacement, on a structural character that is still itself or already escaped. */
  lemma Stage(m: CodeUnit, escaped: bool, c: CodeUnit)
    requires IsMarkup(m) && IsMarkup(c)
    ensures ReplaceAll(if escaped then UnicodeEscape(m) else [m], c, UnicodeEscape(c))
         == if escaped || c == m then UnicodeEscape(m) else [m]
  {
    if escaped {
      EscapeHasNoMarkup(m);
      ReplaceAbsent(UnicodeEscape(m), c, UnicodeEscape(c));
    } else {
      assert [m][1..] == [];
    }
  }

  lemma EscapeOne(c: CodeUnit)
    requires IsMarkup(c)
    ensures EscapeStructuralCharacters([c]) == UnicodeEscape(c)
  {
    EscapeTexts();
    Stage(c, false, 0x26);
    Stage(c, c == 0x26, 0x3C);
    Stage(c, c == 0x26 || c == 0x3C, 0x3E);
    Stage(c, c == 0x26 || c == 0x3C || c == 0x3E, 0x2028);
    Stage(c, c != 0x2029, 0x2029);
  }

  /** The chain of replacements is the one pass: no replacement disturbs another. */
  lemma {:induction false} EscapeIsMark(t: Text)
    ensures EscapeStructuralCharacters(t) == Mark(t)
  {
    if t == [] {
      EscapePlain(t);
    } else {
      assert t == [t[0]] + t[1..];
      EscapeAppend([t[0]], t[1..]);
      EscapeIsMark(t[1..]);
      if IsMarkup(t[0]) {
        EscapeOne(t[0]);
      } else {
        EscapePlain([t[0]]);
      }
    }
  }

  /** No structural character is left, whatever the text. */
  lemma {:induction false} MarkHasNoMarkup(t: Text)
    ensures NoMarkup(Mark(t))
  {
    if t != [] {
      MarkHasNoMarkup(t[1..]);
      EscapeHasNoMarkup(t[0]);
    }
  }

  lemma {:induction false} MarkAppend(a: Text, b: Text)
    ensures Mark(a + b) == Mark(a) + Mark(b)
  {
    if a == [] {
      assert a + b == b;
    } else {
      assert (a + b)[0] == a[0] && (a + b)[1..] == a[1..] + b;
      MarkAppend(a[1..], b);
    }
  }

  lemma {:induction false} MarkPlain(t: Text)
    requires NoMarkup(t)
    ensures Mark(t) == t
  {
    if t != [] {
      assert t == [t[0]] + t[1..];
      MarkPlain(t[1..]);
    }
  }

  // ----- marking printed JSON is printing it in the escaped style

  lemma MarkUnit(indent: bool, c: CodeUnit)
    ensures Mark(EscapeUnit(Style(indent, false), c)) == EscapeUnit(Style(indent, true), c)
  {
    var plain := EscapeUnit(Style(indent, false), c);
    if IsMarkup(c) {
      assert plain == [c] && [c][1..] == [];
      assert Mark(plain) == UnicodeEscape(c) + Mark([]);
    } else {
      EscapeHasNoMarkup(c);
      MarkPlain(plain);
    }
  }

  lemma {:induction false} MarkString(indent: bool, s: Text)
    ensures Mark(EscapeString(Style(indent, false), s)) == EscapeString(Style(indent, true), s)
  {
    var plain := Style(indent, false);
    if s == [] {
    } else if IsLead(s[0]) && |s| > 1 && IsTrail(s[1]) {
      MarkAppend([s[0], s[1]], EscapeString(plain, s[2..]));
      MarkPlain([s[0], s[1]]);
      MarkString(indent, s[2..]);
    } else {
      MarkAppend(EscapeUnit(plain, s[0]), EscapeString(plain, s[1..]));
      MarkUnit(indent, s[0]);
      MarkString(indent, s[1..]);
    }
  }

  lemma MarkAround(before: Text, t: Text, after: Text)
    requires NoMarkup(before) && NoMarkup(after)
    ensures Mark(before + t + after) == before + Mark(t) + after
  {
    MarkAppend(before + t, after);
    MarkAppend(before, t);
    MarkPlain(before);
    MarkPlain(after);
  }

  lemma MarkQuote(indent: bool, s: Text)
    ensures Mark(Quote(Style(indent, false), s)) == Quote(Style(indent, true), s)
  {
    MarkAround([QUOTE], EscapeString(Style(indent, false), s), [QUOTE]);
    MarkString(indent, s);
  }

  lemma LiteralsPlain()
    ensures NoMarkup(Lit("null")) && NoMarkup(Lit("true")) && NoMarkup(Lit("false"))
  {
  }

  lemma {:induction false} MarkPrint(num: Text -> Text, indent: bool, v: Json, depth: nat)
    requires Proper(num, v)
    ensures Mark(Print(Style(indent, false), v, depth)) == Print(Style(indent, true), v, depth)
    decreases v
  {
    match v
    case Null => LiteralsPlain(); MarkPlain(Lit("null"));
    case Bool(b) => LiteralsPlain(); MarkPlain(if b then Lit("true") else Lit("false"));
    case Num(t) => NumberUnits(t); MarkPlain(t);
    case Str(s) => MarkQuote(indent, s);
    case Arr(items) =>
      if items != [] {
        MarkItems(num, indent, items, depth + 1);
      }
      MarkArray(indent, items, depth);
    case Obj(members) =>
      if members != [] {
        MarkMembers(num, indent, members, depth + 1);
      }
      MarkObject(indent, members, depth);
  }

  lemma MarkArray(indent: bool, items: seq<Json>, depth: nat)
    requires items != [] ==>
      Mark(PrintItems(Style(indent, false), items, depth + 1)) == PrintItems(Style(indent, true), items, depth + 1)
    ensures Mark(Print(Style(indent, false), Arr(items), depth)) == Print(Style(indent, true), Arr(items), depth)
  {
    var plain := Style(indent, false);
    if items == [] {
      MarkPlain([OPEN_BRACKET, CLOSE_BRACKET]);
    } else {
      MarkNested(OPEN_BRACKET, Break(plain, depth + 1), PrintItems(plain, items, depth + 1), Break(plain, depth),
        CLOSE_BRACKET);
    }
  }

  lemma MarkObject(indent: bool, members: seq<Member>, depth: nat)
    requires members != [] ==>
      Mark(PrintMembers(Style(indent, false), members, depth + 1)) ==
        PrintMembers(Style(indent, true), members, depth + 1)
    ensures Mark(Print(Style(indent, false), Obj(members), depth)) == Print(Style(indent, true), Obj(members), depth)
  {
    var plain := Style(indent, false);
    if members == [] {
      MarkPlain([OPEN_BRACE, CLOSE_BRACE]);
    } else {
      MarkNested(OPEN_BRACE, Break(plain, depth + 1), PrintMembers(plain, members, depth + 1), Break(plain, depth),
        CLOSE_BRACE);
    }
  }

  lemma MarkNested(open: CodeUnit, w: Text, inner: Text, x: Text, close: CodeUnit)
    requires !IsMarkup(open) && !IsMarkup(close) && NoMarkup(w) && NoMarkup(x)
    ensures Mark([open] + w + inner + x + [close]) == [open] + w + Mark(inner) + x + [close]
  {
    Associate([open] + w + inner, x, [close]);
    MarkAround([open] + w, inner, x + [close]);
    Associate([open] + w + Mark(inner), x, [close]);
  }

  lemma {:induction false} MarkItems(num: Text -> Text, indent: bool, items: seq<Json>, depth: nat)
    requires items != [] && forall x | x in items :: Proper(num, x)
    ensures Mark(PrintItems(Style(indent, false), items, depth)) == PrintItems(Style(indent, true), items, depth)
    decreases items
  {
    var plain := Style(indent, false);
    var first := Print(plain, items[0], depth);
    MarkPrint(num, indent, items[0], depth);
    if |items| == 1 {
      MarkAppend(first, []);
    } else {
      var tail := PrintItems(plain, items[1..], depth);
      MarkItems(num, indent, items[1..], depth);
      MarkListed(first, Break(plain, depth), tail);
    }
  }

  lemma MarkListed(first: Text, w: Text, tail: Text)
    requires NoMarkup(w)
    ensures Mark(first + ([COMMA] + w + tail)) == Mark(first) + ([COMMA] + w + Mark(tail))
  {
    MarkAppend(first, [COMMA] + w + tail);
    MarkAppend([COMMA] + w, tail);
    MarkPlain([COMMA] + w);
  }

  lemma {:induction false} MarkMembers(num: Text -> Text, indent: bool, members: seq<Member>, depth: nat)
    requires members != [] && forall m | m in members :: Proper(num, m.value)
    ensures Mark(PrintMembers(Style(indent, false), members, depth)) ==
      PrintMembers(Style(indent, true), members, depth)
    decreases members
  {
    var plain := Style(indent, false);
    var m, first := members[0], PrintMember(plain, members[0], depth);
    var gap: Text := if indent then [SPACE] else [];
    MarkPrint(num, indent, m.value, depth);
    MarkQuote(indent, m.key);
    MarkMember(Quote(plain, m.key), gap, Print(plain, m.value, depth));
    if |members| == 1 {
      MarkAppend(first, []);
    } else {
      MarkMembers(num, indent, members[1..], depth);
      MarkListed(first, Break(plain, depth), PrintMembers(plain, members[1..], depth));
    }
  }

  lemma MarkMember(key: Text, gap: Text, value: Text)
    requires NoMarkup(gap)
    ensures Mark(key + [COLON] + gap + value) == Mark(key) + [COLON] + gap + Mark(value)
  {
    MarkAppend(key + [COLON] + gap, value);
    Associate(key, [COLON], gap);
    MarkAppend(key, [COLON] + gap);
    MarkPlain([COLON] + gap);
    Associate(Mark(key), [COLON], gap);
  }

  /** Escaping printed JSON loses nothing: it parses to the value that was printed, and holds
      none of the five structural characters. */
  lemma EscapingLossless(num: Text -> Text, v: Json)
    requires Proper(num, v)
    ensures Parse(num, EscapeStructuralCharacters(Print(PRETTY, v, 0))) == Some(v) == Parse(num, Print(PRETTY, v, 0))
    ensures NoMarkup(EscapeStructuralCharacters(Print(PRETTY, v, 0)))
  {
    EscapeIsMark(Print(PRETTY, v, 0));
    MarkPrint(num, true, v, 0);
    MarkHasNoMarkup(Print(PRETTY, v, 0));
    RoundTrip(num, Style(true, true), v);
    RoundTrip(num, PRETTY, v);
  }
}
