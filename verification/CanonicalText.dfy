/**
 Canonical text, spelled out: what is written for every kind of value, and in which order the
 members of an object come.
 */
module CanonicalText {
  import opened Utf16
  import opened JsonText
  import opened ObjectKeys
  import opened Canonical
  import opened CanonicalExact

  // ----- the order of members

  ghost predicate KeysInOrder(keys: seq<Text>) {
    forall i, j :: 0 <= i < j < |keys| ==> KeyBefore(keys[i], keys[j])
  }

  ghost predicate PlainAscend(ms: seq<Member>) {
    forall i, j :: 0 <= i < j < |ms| && !IsIndex(ms[i].key) && !IsIndex(ms[j].key) ==> Less(ms[i].key, ms[j].key)
  }

  lemma {:induction false} PutAscends(ms: seq<Member>, key: Text, value: Json)
    requires OwnOrdered(ms) && PlainAscend(ms)
    requires forall m :: m in ms ==> m.key != key && (IsIndex(key) || IsIndex(m.key) || Less(m.key, key))
    ensures PlainAscend(Put(ms, key, value))
  {
    if ms != [] {
      assert ms[0] in ms && ms == [ms[0]] + ms[1..];
      if OwnBefore(ms[0].key, key) {
        PutAscends(ms[1..], key, value);
        PutOrdered(ms[1..], key, value);
        var r := Put(ms[1..], key, value);
        forall j | 0 <= j < |r| && !IsIndex(ms[0].key) && !IsIndex(r[j].key) ensures Less(ms[0].key, r[j].key) {
          assert r[j] in r;
          if r[j] in ms[1..] {
            var i :| 1 <= i < |ms| && ms[i] == r[j];
          }
        }
      }
    }
  }

  lemma {:induction false} FillKeys(ms: seq<Member>, keys: seq<Text>)
    ensures OwnOrdered(Fill(ms, keys)) && forall m :: m in Fill(ms, keys) ==> m.key in keys
    decreases |keys|
  {
    if keys != [] {
      var front, key := keys[..|keys| - 1], keys[|keys| - 1];
      FillKeys(ms, front);
      assert keys == front + [key];
      if Find(ms, key).Some? {
        PutOrdered(Fill(ms, front), key, Find(ms, key).value);
      }
    }
  }

  lemma {:induction false} FillAscends(ms: seq<Member>, keys: seq<Text>)
    requires Sorted(keys) && NoRepeats(keys)
    ensures PlainAscend(Fill(ms, keys))
    decreases |keys|
  {
    if keys != [] {
      var front, key := keys[..|keys| - 1], keys[|keys| - 1];
      FillAscends(ms, front);
      FillKeys(ms, front);
      if Find(ms, key).Some? && key != PROTO {
        forall m | m in Fill(ms, front) ensures m.key != key && Less(m.key, key) {
          var i :| 0 <= i < |front| && front[i] == m.key;
          assert keys[i] == m.key && LessEq(keys[i], keys[|keys| - 1]);
        }
        PutAscends(Fill(ms, front), key, Find(ms, key).value);
      }
    }
  }

  function MemberKeys(ms: seq<Member>): (keys: seq<Text>)
    ensures |keys| == |ms| && forall i :: 0 <= i < |ms| ==> keys[i] == ms[i].key
  {
    seq(|ms|, i requires 0 <= i < |ms| => ms[i].key)
  }

  /** The members of the ordered object stand in enumeration order. */
  lemma MembersInOrder(f: seq<Field>)
    requires Distinct(f) && OrderFields(f).Some?
    ensures KeysInOrder(MemberKeys(Members(f)))
  {
    var ms := Members(f);
    SortedNoRepeats(f);
    FillAscends(OrderFields(f).value, Sort(Keys(f)));
    FillKeys(OrderFields(f).value, Sort(Keys(f)));
    forall i, j | 0 <= i < j < |ms| ensures KeyBefore(ms[i].key, ms[j].key) {
      assert OwnBefore(ms[i].key, ms[j].key);
      KeyBeforeExact(ms[i].key, ms[j].key);
    }
  }

  // ----- the compact form

  lemma {:induction false} DepthFree(v: Json, depth: nat)
    ensures Print(COMPACT, v, depth) == Print(COMPACT, v, 0)
    decreases v
  {
    match v
    case Arr(items) =>
      if items != [] {
        ItemsDepthFree(items, depth + 1);
        ItemsDepthFree(items, 1);
      }
    case Obj(members) =>
      if members != [] {
        MembersDepthFree(members, depth + 1);
        MembersDepthFree(members, 1);
      }
    case _ =>
  }

  lemma {:induction false} ItemsDepthFree(items: seq<Json>, depth: nat)
    requires items != []
    ensures PrintItems(COMPACT, items, depth) == PrintItems(COMPACT, items, 0)
    decreases items
  {
    DepthFree(items[0], depth);
    if |items| > 1 {
      ItemsDepthFree(items[1..], depth);
    }
  }

  lemma {:induction false} MembersDepthFree(members: seq<Member>, depth: nat)
    requires members != []
    ensures PrintMembers(COMPACT, members, depth) == PrintMembers(COMPACT, members, 0)
    decreases members
  {
    DepthFree(members[0].value, depth);
    if |members| > 1 {
      MembersDepthFree(members[1..], depth);
    }
  }

  function ItemTexts(items: seq<Json>): (ts: seq<Text>)
    ensures |ts| == |items| && forall i :: 0 <= i < |items| ==> ts[i] == Print(COMPACT, items[i], 0)
  {
    seq(|items|, i requires 0 <= i < |items| => Print(COMPACT, items[i], 0))
  }

  function MemberText(m: Member): Text {
    Quote(COMPACT, m.key) + [COLON] + Print(COMPACT, m.value, 0)
  }

  function MemberTexts(ms: seq<Member>): (ts: seq<Text>)
    ensures |ts| == |ms| && forall i :: 0 <= i < |ms| ==> ts[i] == MemberText(ms[i])
  {
    seq(|ms|, i requires 0 <= i < |ms| => MemberText(ms[i]))
  }

  lemma {:induction false} CompactItems(items: seq<Json>)
    requires items != []
    ensures PrintItems(COMPACT, items, 0) == Join(ItemTexts(items), COMMA)
    decreases |items|
  {
    if |items| > 1 {
      CompactItems(items[1..]);
      assert ItemTexts(items)[1..] == ItemTexts(items[1..]);
      Spliced(Print(COMPACT, items[0], 0), PrintItems(COMPACT, items[1..], 0));
    }
  }

  lemma {:induction false} CompactMembers(ms: seq<Member>)
    requires ms != []
    ensures PrintMembers(COMPACT, ms, 0) == Join(MemberTexts(ms), COMMA)
    decreases |ms|
  {
    assert PrintMember(COMPACT, ms[0], 0) == MemberText(ms[0]) by {
      assert Quote(COMPACT, ms[0].key) + [COLON] + [] == Quote(COMPACT, ms[0].key) + [COLON];
    }
    if |ms| > 1 {
      CompactMembers(ms[1..]);
      assert MemberTexts(ms)[1..] == MemberTexts(ms[1..]);
      Spliced(MemberText(ms[0]), PrintMembers(COMPACT, ms[1..], 0));
    }
  }

  lemma Spliced(first: Text, tail: Text)
    ensures first + ([COMMA] + [] + tail) == first + [COMMA] + tail
  {
  }

  lemma CompactArray(items: seq<Json>)
    ensures Print(COMPACT, Arr(items), 0) == [OPEN_BRACKET] + Join(ItemTexts(items), COMMA) + [CLOSE_BRACKET]
  {
    if items != [] {
      ItemsDepthFree(items, 1);
      CompactItems(items);
      Framed(OPEN_BRACKET, Join(ItemTexts(items), COMMA), CLOSE_BRACKET);
    }
  }

  lemma CompactObject(ms: seq<Member>)
    ensures Print(COMPACT, Obj(ms), 0) == [OPEN_BRACE] + Join(MemberTexts(ms), COMMA) + [CLOSE_BRACE]
  {
    if ms != [] {
      MembersDepthFree(ms, 1);
      CompactMembers(ms);
      Framed(OPEN_BRACE, Join(MemberTexts(ms), COMMA), CLOSE_BRACE);
    }
  }

  lemma Framed(open: CodeUnit, inner: Text, close: CodeUnit)
    ensures [open] + [] + inner + [] + [close] == [open] + inner + [close]
  {
  }

  // ----- strings

  /** What JSON writes for one code unit that is not half of a surrogate pair: itself, one of
      seven short escapes, or `\\u` and four lower-case hexadecimal digits. */
  lemma EscapesAsJson(c: CodeUnit)
    ensures EscapeUnit(COMPACT, 0x08) == Lit("\\b") && EscapeUnit(COMPACT, 0x09) == Lit("\\t")
    ensures EscapeUnit(COMPACT, 0x0A) == Lit("\\n") && EscapeUnit(COMPACT, 0x0C) == Lit("\\f")
    ensures EscapeUnit(COMPACT, 0x0D) == Lit("\\r") && EscapeUnit(COMPACT, 0x22) == Lit("\\\"")
    ensures EscapeUnit(COMPACT, 0x5C) == Lit("\\\\")
    ensures (c < 0x20 && c !in {0x08, 0x09, 0x0A, 0x0C, 0x0D}) || 0xD800 <= c < 0xE000 ==>
      EscapeUnit(COMPACT, c) == Lit("\\u") + Hex4(c)
    ensures c >= 0x20 && c != 0x22 && c != 0x5C && !(0xD800 <= c < 0xE000) ==> EscapeUnit(COMPACT, c) == [c]
  {
    if (c < 0x20 && c !in {0x08, 0x09, 0x0A, 0x0C, 0x0D}) || 0xD800 <= c < 0xE000 {
      HexTexts(c);
    }
  }

  /** The four lower-case hexadecimal digits of a code unit. */
  function Hex4(c: CodeUnit): Text {
    var digits, n := Lit("0123456789abcdef"), c as int;
    [digits[n / 4096], digits[n / 256 % 16], digits[n / 16 % 16], digits[n % 16]]
  }

  lemma HexTexts(c: CodeUnit)
    ensures UnicodeEscape(c) == Lit("\\u") + Hex4(c)
  {
    var n := c as int;
    HexText(n / 4096);
    HexText(n / 256 % 16);
    HexText(n / 16 % 16);
    HexText(n % 16);
    assert Lit("\\u") == [BACKSLASH, LETTER_U];
  }

  lemma HexText(n: int)
    requires 0 <= n < 16
    ensures HexDigit(n) == Lit("0123456789abcdef")[n]
  {
    assert Lit("0123456789abcdef") == [
      0x30, 0x31, 0x32, 0x33, 0x34, 0x35, 0x36, 0x37, 0x38, 0x39, 0x61, 0x62, 0x63, 0x64, 0x65, 0x66];
  }

  /** A string is written unit by unit, except that the two halves of a surrogate pair are
      written as they are. */
  lemma EscapesByUnit(a: Text, b: Text)
    requires a == [] || b == [] || !IsLead(a[|a| - 1]) || !IsTrail(b[0])
    ensures EscapeString(COMPACT, a + b) == EscapeString(COMPACT, a) + EscapeString(COMPACT, b)
    ensures forall c :: EscapeString(COMPACT, [c]) == EscapeUnit(COMPACT, c)
    ensures forall c, d :: 0xD800 <= c < 0xDC00 && 0xDC00 <= d < 0xE000 ==> EscapeString(COMPACT, [c, d]) == [c, d]
  {
    EscapesAppend(a, b);
    OneUnit();
  }

  lemma {:induction false} EscapesAppend(a: Text, b: Text)
    requires a == [] || b == [] || !IsLead(a[|a| - 1]) || !IsTrail(b[0])
    ensures EscapeString(COMPACT, a + b) == EscapeString(COMPACT, a) + EscapeString(COMPACT, b)
    decreases |a|
  {
    if a == [] {
      assert a + b == b;
    } else if b == [] {
      assert a + b == a;
    } else if IsLead(a[0]) && |a| > 1 && IsTrail(a[1]) {
      assert (a + b)[2..] == a[2..] + b;
      EscapesAppend(a[2..], b);
    } else {
      assert (a + b)[1..] == a[1..] + b;
      assert |a| > 1 ==> a[1..][|a| - 2] == a[|a| - 1];
      EscapesAppend(a[1..], b);
    }
  }

  lemma OneUnit()
    ensures forall c :: EscapeString(COMPACT, [c]) == EscapeUnit(COMPACT, c)
    ensures forall c, d :: IsLead(c) && IsTrail(d) ==> EscapeString(COMPACT, [c, d]) == [c, d]
  {
    forall c ensures EscapeString(COMPACT, [c]) == EscapeUnit(COMPACT, c) {
      assert [c][1..] == [];
    }
    forall c, d | IsLead(c) && IsTrail(d) ensures EscapeString(COMPACT, [c, d]) == [c, d] {
      assert [c, d][2..] == [];
      assert EscapeString(COMPACT, [c, d]) == [c, d] + EscapeString(COMPACT, []);
    }
  }

  // ----- the text of every kind of value

  lemma ScalarText(v: Value)
    ensures match v
      case Absent => Canonicalize(v) == Some(Lit("null"))
      case Nothing => Canonicalize(v) == Some(Lit("null"))
      case Truth(b) => Canonicalize(v) == Some(if b then Lit("true") else Lit("false"))
      case Number(t) => Canonicalize(v) == Some(t)
      case String(s) => Canonicalize(v) == Some([0x22] + EscapeString(COMPACT, s) + [0x22])
      case Big(d) => Canonicalize(v) == Some([0x22] + EscapeString(COMPACT, d) + [0x22])
      case Instant(iso) => Canonicalize(v) == Some([0x22] + EscapeString(COMPACT, iso) + [0x22])
      case _ => true
  {
  }

  /** The canonical text where there is one. */
  function TextOf(v: Value): Text {
    match Canonicalize(v) case Some(t) => t case None => []
  }

  function ElementTexts(items: seq<Value>): (ts: seq<Text>)
    ensures |ts| == |items| && forall i :: 0 <= i < |items| ==> ts[i] == TextOf(items[i])
  {
    seq(|items|, i requires 0 <= i < |items| => TextOf(items[i]))
  }

  /** An array is its elements in their order, between commas. */
  lemma SequenceText(items: seq<Value>)
    requires Canonicalize(Sequence(items)).Some?
    ensures Canonicalize(Sequence(items)) == Some(Lit("[") + Join(ElementTexts(items), 0x2C) + Lit("]"))
  {
    OrderItemsAt(items);
    var js := OrderItems(items).value;
    CompactArray(js);
    assert ItemTexts(js) == ElementTexts(items);
    assert Lit("[") == [OPEN_BRACKET] && Lit("]") == [CLOSE_BRACKET];
  }

  function FieldText(f: seq<Field>, key: Text): Text {
    [0x22] + EscapeString(COMPACT, key) + [0x22] + [0x3A] + TextOf(Lookup(f, key))
  }

  function FieldTexts(f: seq<Field>, keys: seq<Text>): (ts: seq<Text>)
    ensures |ts| == |keys| && forall i :: 0 <= i < |keys| ==> ts[i] == FieldText(f, keys[i])
  {
    seq(|keys|, i requires 0 <= i < |keys| => FieldText(f, keys[i]))
  }

  /** The keys that are written: those that are set, other than `__proto__`, in order. */
  ghost predicate WrittenKeys(f: seq<Field>, keys: seq<Text>) {
    && KeysInOrder(keys)
    && forall k :: k in keys <==> k != Lit("__proto__") && !Lookup(f, k).Absent?
  }

  function ObjectText(f: seq<Field>, keys: seq<Text>): Text {
    Lit("{") + Join(FieldTexts(f, keys), 0x2C) + Lit("}")
  }

  lemma MemberKnown(f: seq<Field>, i: nat)
    requires Real(Record(f)) && OrderFields(f).Some? && i < |Members(f)|
    ensures var m := Members(f)[i];
      m.key != PROTO && !Lookup(f, m.key).Absent? && Order(Lookup(f, m.key)) == Some(m.value)
  {
    var ms, m := Members(f), Members(f)[i];
    FillKeys(OrderFields(f).value, Sort(Keys(f)));
    OwnFind(ms, i);
    FillFinds(OrderFields(f).value, Sort(Keys(f)), m.key);
    MemberFound(f, m.key);
    FindOrdered(f, m.key);
  }

  /** An object is its members in enumeration order, between commas. */
  lemma RecordText(f: seq<Field>)
    requires Real(Record(f)) && Canonicalize(Record(f)).Some?
    ensures exists keys :: WrittenKeys(f, keys) && Canonicalize(Record(f)) == Some(ObjectText(f, keys))
  {
    var ms := Members(f);
    var keys := MemberKeys(ms);
    OrderedRecord(f);
    CompactObject(ms);
    MembersInOrder(f);
    forall i | 0 <= i < |ms| ensures MemberTexts(ms)[i] == FieldTexts(f, keys)[i] {
      MemberKnown(f, i);
    }
    assert MemberTexts(ms) == FieldTexts(f, keys);
    forall k ensures k in keys <==> k != PROTO && !Lookup(f, k).Absent? {
      KeyWritten(f, k);
    }
    assert Lit("{") == [OPEN_BRACE] && Lit("}") == [CLOSE_BRACE];
    assert WrittenKeys(f, keys) && Canonicalize(Record(f)) == Some(ObjectText(f, keys));
  }

  lemma KeyWritten(f: seq<Field>, k: Text)
    requires Real(Record(f)) && OrderFields(f).Some?
    ensures k in MemberKeys(Members(f)) <==> k != PROTO && !Lookup(f, k).Absent?
  {
    var ms := Members(f);
    if k != PROTO && !Lookup(f, k).Absent? {
      MemberFound(f, k);
      FoundMember(ms, k);
      var i :| 0 <= i < |ms| && ms[i] == Member(k, Find(ms, k).value);
      assert MemberKeys(ms)[i] == k;
    }
    if k in MemberKeys(ms) {
      var i :| 0 <= i < |ms| && MemberKeys(ms)[i] == k;
      MemberKnown(f, i);
    }
  }

  // ----- one order, one text

  lemma KeyBeforeAsymmetric(a: Text, b: Text)
    requires KeyBefore(a, b)
    ensures a != b && !KeyBefore(b, a)
  {
    KeyBeforeExact(a, b);
    KeyBeforeExact(b, a);
    LessIrreflexive(a);
    if Less(a, b) && Less(b, a) {
      LessTransitive(a, b, a);
    }
  }

  lemma HeadBefore(keys: seq<Text>, k: Text)
    requires KeysInOrder(keys) && k in keys && k != keys[0]
    ensures KeyBefore(keys[0], k)
  {
    var i :| 0 <= i < |keys| && keys[i] == k;
  }

  lemma TailKeys(keys: seq<Text>, k: Text)
    requires KeysInOrder(keys) && keys != []
    ensures k in keys[1..] <==> k in keys && k != keys[0]
  {
    if k in keys[1..] {
      var i :| 1 <= i < |keys| && keys[i] == k;
      KeyBeforeAsymmetric(keys[0], keys[i]);
    }
  }

  /** Keys have one enumeration order. */
  lemma {:induction false} OneOrder(a: seq<Text>, b: seq<Text>)
    requires KeysInOrder(a) && KeysInOrder(b) && forall k :: k in a <==> k in b
    ensures a == b
    decreases |a|
  {
    assert a != [] ==> a[0] in b;
    assert b != [] ==> b[0] in a;
    if a != [] {
      if a[0] != b[0] {
        HeadBefore(a, b[0]);
        HeadBefore(b, a[0]);
        KeyBeforeAsymmetric(a[0], b[0]);
      }
      forall k ensures k in a[1..] <==> k in b[1..] {
        TailKeys(a, k);
        TailKeys(b, k);
      }
      OneOrder(a[1..], b[1..]);
      assert a == [a[0]] + a[1..] && b == [b[0]] + b[1..];
    }
  }

  /** So an object's text can be written down from its keys in order. */
  lemma RecordTextIs(f: seq<Field>, keys: seq<Text>)
    requires Real(Record(f)) && Canonicalize(Record(f)).Some? && WrittenKeys(f, keys)
    ensures Canonicalize(Record(f)) == Some(ObjectText(f, keys))
  {
    RecordText(f);
    var written :| WrittenKeys(f, written) && Canonicalize(Record(f)) == Some(ObjectText(f, written));
    OneOrder(written, keys);
  }

  /** Text that needs no escape is written as it is. */
  lemma {:induction false} PlainEscape(t: Text)
    requires forall i :: 0 <= i < |t| ==> 0x20 <= t[i] < 0x7F && t[i] != QUOTE && t[i] != BACKSLASH
    ensures EscapeString(COMPACT, t) == t
  {
    if t != [] {
      PlainEscape(t[1..]);
      assert t == [t[0]] + t[1..];
    }
  }
}
