/**
 The two-space form of JSON, spelled out: one item or member a line, two spaces deeper than
 what holds it.
 */
module PrettyText {
  import opened Utf16
  import opened JsonText
  import opened MemoryContext

  /** A line break and the indent of the next line. */
  function NewLine(spaces: nat): (t: Text)
    ensures |t| == spaces + 1 && t[0] == 0x0A && forall i :: 1 <= i < |t| ==> t[i] == 0x20
  {
    [0x0A] + seq(spaces, _ => 0x20)
  }

  lemma BreakIsNewLine(depth: nat)
    ensures Break(PRETTY, depth) == NewLine(2 * depth)
  {
  }

  /** The lines, with a comma at the end of each but the last. */
  function Lines(parts: seq<Text>, spaces: nat): Text {
    if parts == [] then []
    else if |parts| == 1 then parts[0]
    else parts[0] + [0x2C] + NewLine(spaces) + Lines(parts[1..], spaces)
  }

  function ItemLines(items: seq<Json>, depth: nat): (ts: seq<Text>)
    ensures |ts| == |items| && forall i :: 0 <= i < |items| ==> ts[i] == Print(PRETTY, items[i], depth)
  {
    seq(|items|, i requires 0 <= i < |items| => Print(PRETTY, items[i], depth))
  }

  /** `"key": value` */
  function MemberLine(m: Member, depth: nat): Text {
    [0x22] + EscapeString(PRETTY, m.key) + [0x22] + [0x3A] + [0x20] + Print(PRETTY, m.value, depth)
  }

  function MemberLines(ms: seq<Member>, depth: nat): (ts: seq<Text>)
    ensures |ts| == |ms| && forall i :: 0 <= i < |ms| ==> ts[i] == MemberLine(ms[i], depth)
  {
    seq(|ms|, i requires 0 <= i < |ms| => MemberLine(ms[i], depth))
  }

  lemma Spliced(first: Text, gap: Text, tail: Text)
    ensures first + ([0x2C] + gap + tail) == first + [0x2C] + gap + tail
  {
  }

  lemma {:induction false} ItemsAreLines(items: seq<Json>, depth: nat)
    requires items != []
    ensures PrintItems(PRETTY, items, depth) == Lines(ItemLines(items, depth), 2 * depth)
    decreases |items|
  {
    if |items| > 1 {
      ItemsAreLines(items[1..], depth);
      BreakIsNewLine(depth);
      assert ItemLines(items, depth)[1..] == ItemLines(items[1..], depth);
      Spliced(Print(PRETTY, items[0], depth), NewLine(2 * depth), PrintItems(PRETTY, items[1..], depth));
    }
  }

  lemma {:induction false} MembersAreLines(ms: seq<Member>, depth: nat)
    requires ms != []
    ensures PrintMembers(PRETTY, ms, depth) == Lines(MemberLines(ms, depth), 2 * depth)
    decreases |ms|
  {
    if |ms| > 1 {
      MembersAreLines(ms[1..], depth);
      BreakIsNewLine(depth);
      assert MemberLines(ms, depth)[1..] == MemberLines(ms[1..], depth);
      Spliced(MemberLine(ms[0], depth), NewLine(2 * depth), PrintMembers(PRETTY, ms[1..], depth));
    }
  }

  /** A bracket, a line for each item, and the other bracket on a line of its own; nothing
      between the brackets where there are no items. */
  lemma PrettyArray(items: seq<Json>, depth: nat)
    ensures Print(PRETTY, Arr(items), depth) ==
      if items == [] then Lit("[]")
      else (Lit("[") + NewLine(2 * depth + 2) + Lines(ItemLines(items, depth + 1), 2 * depth + 2)
            + NewLine(2 * depth) + Lit("]"))
  {
    BreakIsNewLine(depth);
    BreakIsNewLine(depth + 1);
    if items != [] {
      ItemsAreLines(items, depth + 1);
    }
    assert Lit("[") == [OPEN_BRACKET] && Lit("]") == [CLOSE_BRACKET];
  }

  /** The same for an object and its members. */
  lemma PrettyObject(ms: seq<Member>, depth: nat)
    ensures Print(PRETTY, Obj(ms), depth) ==
      if ms == [] then Lit("{}")
      else (Lit("{") + NewLine(2 * depth + 2) + Lines(MemberLines(ms, depth + 1), 2 * depth + 2)
            + NewLine(2 * depth) + Lit("}"))
  {
    BreakIsNewLine(depth);
    BreakIsNewLine(depth + 1);
    if ms != [] {
      MembersAreLines(ms, depth + 1);
    }
    assert Lit("{") == [OPEN_BRACE] && Lit("}") == [CLOSE_BRACE];
  }
}
