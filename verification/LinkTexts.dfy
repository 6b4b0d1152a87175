/**
 The text that is hashed into a link, member by member.
 */
module LinkTexts {
  import opened Utf16
  import opened JsonText
  import opened Decimals
  import opened ObjectKeys
  import opened Canonical
  import opened CanonicalText
  import opened Chain

  function JsonString(t: Text): Text {
    Lit("\"") + EscapeString(COMPACT, t) + Lit("\"")
  }

  /** The keys of the link record in the order in which they are written. */
  const WRITTEN_LINK_KEYS: seq<Text> := [ACTOR_ID, CONTENT_HASH, OCCURRED_AT, PREV_HASH, SEQ, STREAM_ID]

  lemma FirstUnitOrders(a: Text, b: Text)
    requires a != [] && b != [] && a[0] < b[0] && !IsDigit(a[0]) && !IsDigit(b[0])
    ensures KeyBefore(a, b)
  {
    PrecedesAt(a, b, 0);
    LessExact(a, b);
    KeyBeforeExact(a, b);
  }

  lemma SeqBeforeStream()
    ensures KeyBefore(SEQ, STREAM_ID)
  {
    assert SEQ[0] == 0x73 && SEQ[1] == 0x65 && STREAM_ID[0] == 0x73 && STREAM_ID[1] == 0x74;
    assert SEQ[..1] == [0x73] && STREAM_ID[..1] == [0x73];
    PrecedesAt(SEQ, STREAM_ID, 1);
    LessExact(SEQ, STREAM_ID);
    KeyBeforeExact(SEQ, STREAM_ID);
  }

  lemma LinkKeysInOrder()
    ensures KeysInOrder(WRITTEN_LINK_KEYS)
  {
    assert ACTOR_ID[0] == 0x61 && CONTENT_HASH[0] == 0x63 && OCCURRED_AT[0] == 0x6F;
    assert PREV_HASH[0] == 0x70 && SEQ[0] == 0x73 && STREAM_ID[0] == 0x73;
    SeqBeforeStream();
    forall i, j | 0 <= i < j < 6 && !(i == 4 && j == 5) ensures KeyBefore(WRITTEN_LINK_KEYS[i], WRITTEN_LINK_KEYS[j]) {
      FirstUnitOrders(WRITTEN_LINK_KEYS[i], WRITTEN_LINK_KEYS[j]);
    }
  }

  lemma LinkFound(e: Event, i: nat)
    requires i < 6
    ensures Lookup(LinkRecord(e), LINK_KEYS[i]) == LinkValue(e, i) && !LinkValue(e, i).Absent?
  {
    LinkRecordReal(e);
    LinkValueReal(e, i);
    LookupField(LinkRecord(e), LinkRecord(e)[i]);
  }

  lemma LinkKeysWritten(e: Event)
    ensures WrittenKeys(LinkRecord(e), WRITTEN_LINK_KEYS)
  {
    LinkKeysInOrder();
    LinkKeysDiffer();
    var f := LinkRecord(e);
    forall k ensures k in WRITTEN_LINK_KEYS <==> k != PROTO && !Lookup(f, k).Absent? {
      if !Lookup(f, k).Absent? {
        var i :| 0 <= i < |f| && f[i] == Field(k, Lookup(f, k));
        assert k == LINK_KEYS[i];
      }
      if k in WRITTEN_LINK_KEYS {
        var j :| 0 <= j < 6 && WRITTEN_LINK_KEYS[j] == k;
        LinkFound(e, [4, 2, 5, 3, 1, 0][j]);
      }
    }
  }

  /** A key that needs no escape, and the text of its value. */
  function Entry(key: Text, value: Text): Text {
    Lit("\"") + key + Lit("\":") + value
  }

  predicate PlainText(t: Text) {
    forall i :: 0 <= i < |t| ==> 0x20 <= t[i] < 0x7F && t[i] != QUOTE && t[i] != BACKSLASH
  }

  lemma PlainKeys(i: nat)
    requires i < 6
    ensures PlainText(LINK_KEYS[i])
  {
    assert PlainText(STREAM_ID) && PlainText(SEQ) && PlainText(CONTENT_HASH);
    assert PlainText(PREV_HASH) && PlainText(ACTOR_ID) && PlainText(OCCURRED_AT);
  }

  lemma PlainField(f: seq<Field>, key: Text)
    requires PlainText(key)
    ensures FieldText(f, key) == Entry(key, TextOf(Lookup(f, key)))
  {
    PlainEscape(key);
    assert Lit("\"") == [0x22] && Lit("\":") == [0x22] + [0x3A];
    var value := TextOf(Lookup(f, key));
    assert [0x22] + key + [0x22] + [0x3A] == [0x22] + key + ([0x22] + [0x3A]);
  }

  lemma LinkEntry(e: Event, i: nat)
    requires i < 6
    ensures FieldText(LinkRecord(e), LINK_KEYS[i]) == Entry(LINK_KEYS[i], TextOf(LinkValue(e, i)))
  {
    PlainKeys(i);
    PlainField(LinkRecord(e), LINK_KEYS[i]);
    LinkFound(e, i);
  }

  lemma StringText(t: Text)
    ensures TextOf(String(t)) == JsonString(t)
  {
    ScalarText(String(t));
    assert Lit("\"") == [0x22];
  }

  function HashText(h: Option<Text>): Text {
    match h
    case None => Lit("null")
    case Some(t) => JsonString(t)
  }

  lemma NullableText(h: Option<Text>)
    ensures TextOf(Nullable(h)) == HashText(h)
  {
    if h.Some? {
      StringText(h.value);
    }
  }

  lemma ValueTexts(e: Event)
    ensures TextOf(LinkValue(e, 0)) == JsonString(e.stream) && TextOf(LinkValue(e, 1)) == Decimal(e.seqNo)
    ensures TextOf(LinkValue(e, 2)) == JsonString(e.contentHash) && TextOf(LinkValue(e, 3)) == HashText(e.prevHash)
    ensures TextOf(LinkValue(e, 4)) == JsonString(e.actor) && TextOf(LinkValue(e, 5)) == JsonString(e.occurredAt)
  {
    StringText(e.stream);
    StringText(e.contentHash);
    StringText(e.actor);
    StringText(e.occurredAt);
    NullableText(e.prevHash);
  }

  lemma SixTexts(ts: seq<Text>, a: Text, b: Text, c: Text, d: Text, x: Text, y: Text)
    requires |ts| == 6 && ts[0] == a && ts[1] == b && ts[2] == c && ts[3] == d && ts[4] == x && ts[5] == y
    ensures ts == [a, b, c, d, x, y]
  {
  }

  lemma EntryWith(e: Event, i: nat, key: Text, value: Text)
    requires i < 6 && LINK_KEYS[i] == key && TextOf(LinkValue(e, i)) == value
    ensures FieldText(LinkRecord(e), key) == Entry(key, value)
  {
    LinkEntry(e, i);
  }

  lemma LinkEntries(e: Event)
    ensures FieldTexts(LinkRecord(e), WRITTEN_LINK_KEYS) == [
      Entry(ACTOR_ID, JsonString(e.actor)), Entry(CONTENT_HASH, JsonString(e.contentHash)),
      Entry(OCCURRED_AT, JsonString(e.occurredAt)), Entry(PREV_HASH, HashText(e.prevHash)),
      Entry(SEQ, Decimal(e.seqNo)), Entry(STREAM_ID, JsonString(e.stream))]
  {
    ValueTexts(e);
    EntryWith(e, 4, ACTOR_ID, JsonString(e.actor));
    EntryWith(e, 2, CONTENT_HASH, JsonString(e.contentHash));
    EntryWith(e, 5, OCCURRED_AT, JsonString(e.occurredAt));
    EntryWith(e, 3, PREV_HASH, HashText(e.prevHash));
    EntryWith(e, 1, SEQ, Decimal(e.seqNo));
    EntryWith(e, 0, STREAM_ID, JsonString(e.stream));
    SixTexts(FieldTexts(LinkRecord(e), WRITTEN_LINK_KEYS),
      Entry(ACTOR_ID, JsonString(e.actor)), Entry(CONTENT_HASH, JsonString(e.contentHash)),
      Entry(OCCURRED_AT, JsonString(e.occurredAt)), Entry(PREV_HASH, HashText(e.prevHash)),
      Entry(SEQ, Decimal(e.seqNo)), Entry(STREAM_ID, JsonString(e.stream)));
  }

  /** What is hashed into a link: the six members under their names, in the order of the names,
      between commas. */
  lemma LinkTextExact(sha: Text -> Text, e: Event)
    ensures Link(sha, e) == sha(Lit("{") + Join([
      Entry(Lit("actor_id"), JsonString(e.actor)), Entry(Lit("content_hash"), JsonString(e.contentHash)),
      Entry(Lit("occurred_at"), JsonString(e.occurredAt)), Entry(Lit("prev_hash"), HashText(e.prevHash)),
      Entry(Lit("seq"), Decimal(e.seqNo)), Entry(Lit("stream_id"), JsonString(e.stream))], 0x2C) + Lit("}"))
  {
    LinkRecordReal(e);
    LinkKeysWritten(e);
    RecordTextIs(LinkRecord(e), WRITTEN_LINK_KEYS);
    LinkEntries(e);
  }
}
