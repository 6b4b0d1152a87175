/**
 The hash chain of a stream: what a link commits to, `verifyChain`, and what its verdict
 means. SHA-256 is a function parameter; a lemma that needs it to be free of collisions
 says so.
 */
module Chain {
  import opened Utf16
  import opened JsonText
  import opened JsonUnits
  import opened Canonical
  import opened CanonicalExact
  import opened Decimals

  /** A row of `events`, as far as the chain and idempotency look at it. */
  datatype Event = Event(
    id: nat, tenant: Text, stream: Text, seqNo: nat, actor: Text, occurredAt: Text,
    contentHash: Text, prevHash: Option<Text>, linkHash: Option<Text>, chained: bool, key: Option<Text>)

  /** The hash of a string is that of its UTF-8 bytes, so at best it tells well-formed texts
      apart. */
  ghost predicate Injective(sha: Text -> Text) {
    forall x, y :: WellFormed(x) && WellFormed(y) && sha(x) == sha(y) ==> x == y
  }

  // ----- the link

  const STREAM_ID: Text := Lit("stream_id")
  const SEQ: Text := Lit("seq")
  const CONTENT_HASH: Text := Lit("content_hash")
  const PREV_HASH: Text := Lit("prev_hash")
  const ACTOR_ID: Text := Lit("actor_id")
  const OCCURRED_AT: Text := Lit("occurred_at")

  function Nullable(t: Option<Text>): Value {
    match t
    case None => Nothing
    case Some(s) => String(s)
  }

  const LINK_KEYS: seq<Text> := [STREAM_ID, SEQ, CONTENT_HASH, PREV_HASH, ACTOR_ID, OCCURRED_AT]

  function LinkValue(e: Event, i: nat): Value {
    if i == 0 then String(e.stream) else if i == 1 then Number(Decimal(e.seqNo))
    else if i == 2 then String(e.contentHash) else if i == 3 then Nullable(e.prevHash)
    else if i == 4 then String(e.actor) else String(e.occurredAt)
  }

  /** The object whose canonical text is hashed into `link_hash`. */
  function LinkRecord(e: Event): (f: seq<Field>)
    ensures |f| == 6 && forall i :: 0 <= i < 6 ==> f[i] == Field(LINK_KEYS[i], LinkValue(e, i))
  {
    seq(6, i requires 0 <= i < 6 => Field(LINK_KEYS[i], LinkValue(e, i)))
  }

  lemma LinkKeysDiffer()
    ensures forall i, j :: 0 <= i < j < 6 ==> LINK_KEYS[i] != LINK_KEYS[j]
    ensures forall i :: 0 <= i < 6 ==> LINK_KEYS[i] != PROTO
  {
    assert STREAM_ID[0] == 's' as int as CodeUnit && PREV_HASH[0] == 'p' as int as CodeUnit;
    assert PROTO[0] == '_' as int as CodeUnit;
    assert |STREAM_ID| == 9 && |SEQ| == 3 && |CONTENT_HASH| == 12 && |PREV_HASH| == 9;
    assert |ACTOR_ID| == 8 && |OCCURRED_AT| == 11 && |PROTO| == 9;
  }

  lemma ScalarsReal(f: seq<Field>)
    requires Distinct(f) && forall i :: 0 <= i < |f| ==> Real(f[i].value) && Order(f[i].value).Some?
    ensures Real(Record(f)) && Canonicalize(Record(f)).Some?
  {
    OrderFieldsAt(f);
  }

  lemma LinkValueReal(e: Event, i: nat)
    ensures Real(LinkValue(e, i)) && Order(LinkValue(e, i)).Some? && !LinkValue(e, i).Absent?
  {
    DecimalIsNumber(e.seqNo);
  }

  lemma LinkRecordReal(e: Event)
    ensures Distinct(LinkRecord(e)) && Real(Record(LinkRecord(e))) && Canonicalize(Record(LinkRecord(e))).Some?
  {
    LinkKeysDiffer();
    var f := LinkRecord(e);
    forall i | 0 <= i < 6 ensures Real(f[i].value) && Order(f[i].value).Some? {
      LinkValueReal(e, i);
    }
    ScalarsReal(f);
  }

  /** Records that agree, with the same keys in the same places, agree in every place. */
  lemma SameInPlace(f: seq<Field>, g: seq<Field>, i: nat)
    requires i < |f| == |g| && Distinct(g) && f[i].key == g[i].key != PROTO && !f[i].value.Absent?
    requires Same(false, Record(f), Record(g))
    ensures Same(false, f[i].value, g[i].value)
  {
    LookupField(g, g[i]);
    assert f[i] in f && Counts(false, f[i]);
  }

  function LinkText(e: Event): Text {
    LinkRecordReal(e);
    Canonicalize(Record(LinkRecord(e))).value
  }

  function Link(sha: Text -> Text, e: Event): Text {
    sha(LinkText(e))
  }

  /** The six fields a link commits to. */
  predicate SameCommitment(a: Event, b: Event) {
    && a.stream == b.stream && a.seqNo == b.seqNo && a.contentHash == b.contentHash
    && a.prevHash == b.prevHash && a.actor == b.actor && a.occurredAt == b.occurredAt
  }

  lemma LinkField(a: Event, b: Event, i: nat)
    requires i < 6 && Same(false, Record(LinkRecord(a)), Record(LinkRecord(b)))
    ensures Same(false, LinkValue(a, i), LinkValue(b, i))
  {
    LinkRecordReal(b);
    LinkKeysDiffer();
    LinkValueReal(a, i);
    SameInPlace(LinkRecord(a), LinkRecord(b), i);
  }

  lemma SameRecordSameCommitment(a: Event, b: Event)
    requires Same(false, Record(LinkRecord(a)), Record(LinkRecord(b)))
    ensures SameCommitment(a, b)
  {
    assert a.stream == b.stream by { LinkField(a, b, 0); SameStrings(a.stream, b.stream); }
    assert a.seqNo == b.seqNo by {
      LinkField(a, b, 1);
      SameNumbers(Decimal(a.seqNo), Decimal(b.seqNo));
      DecimalInjective(a.seqNo, b.seqNo);
    }
    assert a.contentHash == b.contentHash by { LinkField(a, b, 2); SameStrings(a.contentHash, b.contentHash); }
    assert a.prevHash == b.prevHash by { LinkField(a, b, 3); SameNullables(a.prevHash, b.prevHash); }
    assert a.actor == b.actor by { LinkField(a, b, 4); SameStrings(a.actor, b.actor); }
    assert a.occurredAt == b.occurredAt by { LinkField(a, b, 5); SameStrings(a.occurredAt, b.occurredAt); }
  }

  lemma SameStrings(x: Text, y: Text)
    requires Same(false, String(x), String(y))
    ensures x == y
  {
  }

  lemma SameNumbers(x: Text, y: Text)
    requires Same(false, Number(x), Number(y))
    ensures x == y
  {
  }

  lemma SameNullables(x: Option<Text>, y: Option<Text>)
    requires Same(false, Nullable(x), Nullable(y))
    ensures x == y
  {
  }

  lemma LinkTextWellFormed(e: Event)
    ensures WellFormed(LinkText(e))
  {
    LinkRecordReal(e);
    OrderProper(Record(LinkRecord(e)));
    PrintWellFormed(AsIs, COMPACT, Order(Record(LinkRecord(e))).value, 0);
  }

  /** A link commits to exactly the six fields: through canonical text, decimal digits and the
      hash, equal links mean equal fields. */
  lemma LinkCommits(sha: Text -> Text, a: Event, b: Event)
    requires Injective(sha)
    ensures Link(sha, a) == Link(sha, b) <==> SameCommitment(a, b)
  {
    if Link(sha, a) == Link(sha, b) {
      LinkRecordReal(a);
      LinkRecordReal(b);
      LinkTextWellFormed(a);
      LinkTextWellFormed(b);
      CanonicalExactness(Record(LinkRecord(a)), Record(LinkRecord(b)));
      SameRecordSameCommitment(a, b);
    }
    if SameCommitment(a, b) {
      assert LinkRecord(a) == LinkRecord(b);
    }
  }
}
