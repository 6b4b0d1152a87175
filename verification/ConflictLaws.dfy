/**
 What the comparison says of two claim objects, in terms of the objects themselves.
 */
module ConflictLaws {
  import opened Utf16
  import opened JsonText
  import opened Canonical
  import opened CanonicalExact
  import CanonicalText
  import opened Conflict

  // ----- scalars

  /** Two scalars: duplicates when the folded texts are equal or both name one number, and
      otherwise a contradiction. A scalar and a structure are not compared. */
  lemma ScalarsExact(js: Runtime, x: Text, y: Text)
    requires x == [] || (x[0] != 0x7B && x[0] != 0x5B)
    ensures var number := js.number(x).Some? && js.number(x) == js.number(y);
      if y == [] || (y[0] != 0x7B && y[0] != 0x5B) then
        Classify(js, x, y) == Some(if x == y || number then Duplicates else Contradicts)
      else Classify(js, x, y) == None && Classify(js, y, x) == None
  {
  }

  /** What is compared: a string's folded text, nothing for null, and for everything else that
      JSON can carry its canonical text. */
  lemma NormalizedExact(js: Runtime, v: Value)
    ensures v.String? ==> NormalizeObject(js, v) == js.fold(v.s)
    ensures v.Nothing? || v.Absent? ==> NormalizeObject(js, v) == []
    ensures v.Truth? || v.Number? || v.Sequence? || v.Record? ==>
      Canonicalize(v).Some? ==> Canonicalize(v) == Some(NormalizeObject(js, v))
  {
  }

  // ----- records

  /** A record that JSON carries there and back. */
  ghost predicate Carried(js: Runtime, f: seq<Field>) {
    Real(Record(f)) && OrderFields(f).Some? && Proper(js.token, Obj(Members(f)))
  }

  predicate Sharing(f: seq<Field>, g: seq<Field>, k: Text) {
    k != PROTO && !Lookup(f, k).Absent? && !Lookup(g, k).Absent?
  }

  /** The same value under every key that both have. */
  ghost predicate AgreeOnShared(f: seq<Field>, g: seq<Field>) {
    forall k :: Sharing(f, g, k) ==> Same(false, Lookup(f, k), Lookup(g, k))
  }

  /** The keys that are set. */
  function KeySet(f: seq<Field>): set<Text> {
    set p | p in f && p.key != PROTO && !p.value.Absent? :: p.key
  }

  lemma {:induction false} KeysCount(keys: seq<Text>)
    requires NoRepeats(keys)
    ensures |set k | k in keys| == |keys|
  {
    if keys != [] {
      KeysCount(keys[1..]);
      assert (set k | k in keys) == {keys[0]} + (set k | k in keys[1..]) by {
        assert keys == [keys[0]] + keys[1..];
      }
      forall j | 0 <= j < |keys[1..]| ensures keys[1..][j] != keys[0] {
        assert keys[1..][j] == keys[j + 1];
      }
    }
  }

  lemma MembersCount(f: seq<Field>)
    requires Real(Record(f)) && OrderFields(f).Some?
    ensures |Members(f)| == |KeySet(f)|
  {
    var keys := CanonicalText.MemberKeys(Members(f));
    CanonicalText.MembersInOrder(f);
    forall i, j | 0 <= i < j < |keys| ensures keys[i] != keys[j] {
      CanonicalText.KeyBeforeAsymmetric(keys[i], keys[j]);
    }
    KeysCount(keys);
    forall k ensures k in keys <==> k in KeySet(f) {
      CanonicalText.KeyWritten(f, k);
      if k in KeySet(f) {
        var p :| p in f && p.key == k && k != PROTO && !p.value.Absent?;
        LookupField(f, p);
      }
      if k != PROTO && !Lookup(f, k).Absent? {
        assert Field(k, Lookup(f, k)) in f;
      }
    }
    assert (set k | k in keys) == KeySet(f);
  }

  lemma SharedIs(f: seq<Field>, g: seq<Field>, k: Text)
    requires Distinct(f) && Distinct(g) && OrderFields(f).Some? && OrderFields(g).Some?
    ensures SharedKey(Members(f), Members(g), k) <==> Sharing(f, g, k)
  {
    if k == PROTO {
      FillFinds(OrderFields(f).value, Sort(Keys(f)), PROTO);
    } else {
      MemberFound(f, k);
      MemberFound(g, k);
    }
  }

  lemma ValueFound(f: seq<Field>, k: Text)
    requires Real(Record(f)) && OrderFields(f).Some? && k != PROTO && !Lookup(f, k).Absent?
    ensures Find(Members(f), k) == Order(Lookup(f, k)) && Order(Lookup(f, k)).Some? && Real(Lookup(f, k))
  {
    MemberFound(f, k);
    FindOrdered(f, k);
    assert Field(k, Lookup(f, k)) in f;
  }

  lemma AgreesIs(f: seq<Field>, g: seq<Field>, k: Text)
    requires Real(Record(f)) && Real(Record(g)) && OrderFields(f).Some? && OrderFields(g).Some? && Sharing(f, g, k)
    ensures SharedKey(Members(f), Members(g), k)
    ensures Agrees(Members(f), Members(g), k) <==> Same(false, Lookup(f, k), Lookup(g, k))
  {
    ValueFound(f, k);
    ValueFound(g, k);
    CanonicalExactness(Lookup(f, k), Lookup(g, k));
  }

  lemma SharesIff(f: seq<Field>, g: seq<Field>)
    requires Distinct(f) && Distinct(g) && OrderFields(f).Some? && OrderFields(g).Some?
    ensures (exists k :: SharedKey(Members(f), Members(g), k)) <==> exists k :: Sharing(f, g, k)
  {
    if k :| SharedKey(Members(f), Members(g), k) {
      SharedIs(f, g, k);
    }
    if k :| Sharing(f, g, k) {
      SharedIs(f, g, k);
    }
  }

  lemma AgreesIff(f: seq<Field>, g: seq<Field>)
    requires Real(Record(f)) && Real(Record(g)) && OrderFields(f).Some? && OrderFields(g).Some?
    ensures (exists k :: SharedKey(Members(f), Members(g), k) && !Agrees(Members(f), Members(g), k)) <==>
      !AgreeOnShared(f, g)
  {
    if k :| SharedKey(Members(f), Members(g), k) && !Agrees(Members(f), Members(g), k) {
      SharedIs(f, g, k);
      AgreesIs(f, g, k);
    }
    if k :| Sharing(f, g, k) && !Same(false, Lookup(f, k), Lookup(g, k)) {
      AgreesIs(f, g, k);
    }
  }

  lemma Decided(left: seq<Member>, right: seq<Member>, shares: bool, agrees: bool)
    requires shares <==> exists k :: SharedKey(left, right, k)
    requires !agrees <==> exists k :: SharedKey(left, right, k) && !Agrees(left, right, k)
    ensures ClassifyObjects(left, right) ==
      if !shares then None
      else if !agrees then Some(Contradicts)
      else if |left| == |right| then Some(Duplicates)
      else if |left| < |right| then Some(Supersedes)
      else Some(Narrows)
  {
  }

  /** The comparison of the parsed objects, in terms of the records. */
  lemma ObjectsExact(f: seq<Field>, g: seq<Field>)
    requires Real(Record(f)) && Real(Record(g)) && OrderFields(f).Some? && OrderFields(g).Some?
    ensures ClassifyObjects(Members(f), Members(g)) ==
      if !exists k :: Sharing(f, g, k) then None
      else if !AgreeOnShared(f, g) then Some(Contradicts)
      else if |KeySet(f)| == |KeySet(g)| then Some(Duplicates)
      else if |KeySet(f)| < |KeySet(g)| then Some(Supersedes)
      else Some(Narrows)
  {
    MembersCount(f);
    MembersCount(g);
    SharesIff(f, g);
    AgreesIff(f, g);
    Decided(Members(f), Members(g), exists k :: Sharing(f, g, k), AgreeOnShared(f, g));
  }

  lemma SameRecordsAgree(f: seq<Field>, g: seq<Field>)
    requires Distinct(f) && Distinct(g) && Same(false, Record(f), Record(g))
    ensures AgreeOnShared(f, g) && KeySet(f) == KeySet(g)
  {
    forall k | Sharing(f, g, k) ensures Same(false, Lookup(f, k), Lookup(g, k)) {
      assert Field(k, Lookup(f, k)) in f && Counts(false, Field(k, Lookup(f, k)));
    }
    SameHasSameKeys(f, g);
    forall k ensures k in KeySet(f) <==> k in KeySet(g) {
      InKeySet(f, k);
      InKeySet(g, k);
    }
  }

  lemma InKeySet(f: seq<Field>, k: Text)
    requires Distinct(f)
    ensures k in KeySet(f) <==> k != PROTO && !Lookup(f, k).Absent?
  {
    if k in KeySet(f) {
      var p :| p in f && p.key == k && k != PROTO && !p.value.Absent?;
      LookupField(f, p);
    }
    if k != PROTO && !Lookup(f, k).Absent? {
      assert Field(k, Lookup(f, k)) in f;
    }
  }

  /** What the comparison says of two records, the existing one first. */
  lemma RecordsRelated(js: Runtime, f: seq<Field>, g: seq<Field>)
    requires Carried(js, f) && Carried(js, g)
    ensures var r := Classify(js, NormalizeObject(js, Record(f)), NormalizeObject(js, Record(g)));
      var shared := (exists k :: Sharing(f, g, k)) && AgreeOnShared(f, g);
      && (r == Some(Contradicts) <==> !AgreeOnShared(f, g))
      && (r == Some(Supersedes) <==> shared && |KeySet(f)| < |KeySet(g)|)
      && (r == Some(Narrows) <==> shared && |KeySet(g)| < |KeySet(f)|)
      && (r == Some(Duplicates) <==> Same(false, Record(f), Record(g)) || (shared && |KeySet(f)| == |KeySet(g)|))
      && (r == None <==> !Same(false, Record(f), Record(g)) && !exists k :: Sharing(f, g, k))
  {
    RecordsCompared(js, f, g);
    EqualTexts(js, f, g);
    ObjectsExact(f, g);
    if Same(false, Record(f), Record(g)) {
      SameRecordsAgree(f, g);
    }
  }

  /** A record with every member of another, and more. */
  ghost predicate Extension(f: seq<Field>, g: seq<Field>) {
    KeySet(f) != {} && KeySet(f) < KeySet(g) && AgreeOnShared(f, g)
  }

  lemma {:induction false} StrictSubsetSize(a: set<Text>, b: set<Text>)
    requires a < b
    ensures |a| < |b|
    decreases |a|
  {
    var y :| y in b && y !in a;
    if x :| x in a {
      assert y in b - {x} && y !in a - {x};
      StrictSubsetSize(a - {x}, b - {x});
    }
  }

  lemma SharingSymmetric(f: seq<Field>, g: seq<Field>)
    requires AgreeOnShared(f, g) && Real(Record(f)) && Real(Record(g)) && OrderFields(f).Some? && OrderFields(g).Some?
    ensures AgreeOnShared(g, f)
  {
    forall k | Sharing(g, f, k) ensures Same(false, Lookup(g, k), Lookup(f, k)) {
      assert Sharing(f, g, k);
      ValueFound(f, k);
      ValueFound(g, k);
      CanonicalExactness(Lookup(f, k), Lookup(g, k));
      CanonicalExactness(Lookup(g, k), Lookup(f, k));
    }
  }

  lemma ExtensionShares(f: seq<Field>, g: seq<Field>)
    requires Distinct(f) && Distinct(g) && Extension(f, g)
    ensures (exists k :: Sharing(f, g, k)) && (exists k :: Sharing(g, f, k)) && |KeySet(f)| < |KeySet(g)|
  {
    var k :| k in KeySet(f);
    InKeySet(f, k);
    InKeySet(g, k);
    assert Sharing(f, g, k) && Sharing(g, f, k);
    StrictSubsetSize(KeySet(f), KeySet(g));
  }

  /** Extending a record by members supersedes it; leaving members out narrows it. */
  lemma ExtensionRelated(js: Runtime, f: seq<Field>, g: seq<Field>)
    requires Carried(js, f) && Carried(js, g) && Extension(f, g)
    ensures Classify(js, NormalizeObject(js, Record(f)), NormalizeObject(js, Record(g))) == Some(Supersedes)
    ensures Classify(js, NormalizeObject(js, Record(g)), NormalizeObject(js, Record(f))) == Some(Narrows)
  {
    ExtensionShares(f, g);
    SharingSymmetric(f, g);
    RecordsRelated(js, f, g);
    RecordsRelated(js, g, f);
  }
}
