/**
 What canonical text loses: members named `__proto__`, and nothing else but the order of keys
 and undefined members.
*/
module CanonicalLoss {
  import opened Utf16
  import opened Canonical
  import opened CanonicalExact

  predicate NoProto(v: Value) {
    match v
    case Sequence(items) => forall x | x in items :: NoProto(x)
    case Record(fields) => forall f | f in fields :: f.value.Absent? || (f.key != PROTO && NoProto(f.value))
    case _ => true
  }

  /** The value without its `__proto__` members, at any depth. */
  function Strip(v: Value): (r: Value)
    ensures r.Absent? <==> v.Absent?
    decreases v
  {
    match v
    case Sequence(items) => Sequence(StripItems(items))
    case Record(fields) => Record(StripFields(fields))
    case _ => v
  }

  function StripItems(items: seq<Value>): (r: seq<Value>)
    ensures |r| == |items| && forall i :: 0 <= i < |items| ==> r[i] == Strip(items[i])
    decreases items
  {
    if items == [] then [] else [Strip(items[0])] + StripItems(items[1..])
  }

  function StripFields(fields: seq<Field>): (r: seq<Field>)
    ensures forall f :: f in r ==> f.key != PROTO && exists g :: g in fields && f == Field(g.key, Strip(g.value))
    decreases fields
  {
    if fields == [] then []
    else if fields[0].key == PROTO then StripFields(fields[1..])
    else [Field(fields[0].key, Strip(fields[0].value))] + StripFields(fields[1..])
  }

  lemma {:induction false} StripLookup(fields: seq<Field>, k: Text)
    ensures Lookup(StripFields(fields), k) == if k == PROTO then Absent else Strip(Lookup(fields, k))
  {
    if fields != [] {
      StripLookup(fields[1..], k);
    }
  }

  lemma {:induction false} StripDistinct(fields: seq<Field>)
    requires Distinct(fields)
    ensures Distinct(StripFields(fields))
  {
    if fields != [] {
      StripDistinct(fields[1..]);
      var r := StripFields(fields[1..]);
      forall j | 0 <= j < |r| ensures r[j].key != fields[0].key {
        assert r[j] in r;
        var g :| g in fields[1..] && r[j] == Field(g.key, Strip(g.value));
        var i :| 1 <= i < |fields| && fields[i] == g;
      }
    }
  }

  /** Records with the same value, up to `Same`, under every key that counts. */
  lemma RecordsSame(proto: bool, f: seq<Field>, g: seq<Field>)
    requires Distinct(f) && Distinct(g)
    requires forall k :: proto || k != PROTO ==> (Lookup(f, k).Absent? <==> Lookup(g, k).Absent?)
    requires forall p :: p in f && Counts(proto, p) ==> Same(proto, p.value, Lookup(g, p.key))
    ensures Same(proto, Record(f), Record(g))
  {
    forall p | p in f ensures Lookup(f, p.key) == p.value {
      LookupField(f, p);
    }
    forall q | q in g ensures Lookup(g, q.key) == q.value {
      LookupField(g, q);
    }
  }

  lemma RecordOrders(f: seq<Field>)
    ensures Order(Record(f)).Some? <==> forall p :: p in f ==> Order(p.value).Some?
  {
    OrderFieldsAt(f);
  }

  /** What the stripped value is to its value. */
  ghost predicate Stripped(v: Value, w: Value) {
    Real(w) && NoProto(w) && Same(false, v, w) && (Order(v).Some? ==> Order(w).Some?)
  }

  lemma StrippedSequence(x: seq<Value>, y: seq<Value>)
    requires |x| == |y| && forall i :: 0 <= i < |x| ==> Stripped(x[i], y[i])
    ensures Stripped(Sequence(x), Sequence(y))
  {
    OrderItemsAt(x);
    OrderItemsAt(y);
  }

  lemma StrippedFields(fields: seq<Field>, f: Field)
    requires (forall g :: g in fields ==> Stripped(g.value, Strip(g.value))) && f in StripFields(fields)
    ensures f.key != PROTO && Real(f.value) && NoProto(f.value)
    ensures (forall g :: g in fields ==> Order(g.value).Some?) ==> Order(f.value).Some?
  {
    var g :| g in fields && f == Field(g.key, Strip(g.value));
    assert Stripped(g.value, Strip(g.value));
  }

  lemma StrippedRecord(fields: seq<Field>)
    requires Distinct(fields) && forall f :: f in fields ==> Stripped(f.value, Strip(f.value))
    ensures Stripped(Record(fields), Record(StripFields(fields)))
  {
    var r := StripFields(fields);
    StripDistinct(fields);
    RecordOrders(fields);
    RecordOrders(r);
    forall f | f in r
      ensures f.key != PROTO && Real(f.value) && NoProto(f.value)
      ensures Order(Record(fields)).Some? ==> Order(f.value).Some?
    {
      StrippedFields(fields, f);
    }
    forall k ensures Lookup(r, k) == if k == PROTO then Absent else Strip(Lookup(fields, k)) {
      StripLookup(fields, k);
    }
    forall p | p in fields && Counts(false, p) ensures Same(false, p.value, Lookup(r, p.key)) {
      LookupField(fields, p);
      assert Stripped(p.value, Strip(p.value));
    }
    RecordsSame(false, fields, r);
  }

  lemma {:induction false} StripSame(v: Value)
    requires Real(v)
    ensures Stripped(v, Strip(v))
    decreases v
  {
    match v
    case Sequence(items) =>
      forall i | 0 <= i < |items| ensures Stripped(items[i], Strip(items[i])) {
        StripSame(items[i]);
      }
      StrippedSequence(items, StripItems(items));
    case Record(fields) =>
      forall f | f in fields ensures Stripped(f.value, Strip(f.value)) {
        StripSame(f.value);
      }
      StrippedRecord(fields);
    case _ =>
  }

  lemma {:induction false} ProtoSeen(a: Value, b: Value)
    requires Real(a) && Same(true, a, b) && NoProto(b)
    ensures NoProto(a)
    decreases a
  {
    match (a, b)
    case (Sequence(x), Sequence(y)) =>
      forall i | 0 <= i < |x| ensures NoProto(x[i]) {
        ProtoSeen(x[i], y[i]);
      }
    case (Record(f), Record(g)) =>
      forall p | p in f && !p.value.Absent? ensures p.key != PROTO && NoProto(p.value) {
        assert Counts(true, p);
        var q := Field(p.key, Lookup(g, p.key));
        assert q in g;
        ProtoSeen(p.value, q.value);
      }
    case _ =>
  }

  lemma {:induction false} ProtoFree(a: Value, b: Value)
    requires NoProto(a) && NoProto(b)
    ensures Same(true, a, b) <==> Same(false, a, b)
    decreases a
  {
    match (a, b)
    case (Sequence(x), Sequence(y)) =>
      forall i | 0 <= i < |x| && i < |y| ensures Same(true, x[i], y[i]) <==> Same(false, x[i], y[i]) {
        ProtoFree(x[i], y[i]);
      }
    case (Record(f), Record(g)) =>
      forall p | p in f ensures Counts(true, p) <==> Counts(false, p) {
      }
      forall q | q in g ensures Counts(true, q) <==> Counts(false, q) {
      }
      forall p | p in f && Counts(true, p) && !Lookup(g, p.key).Absent?
        ensures Same(true, p.value, Lookup(g, p.key)) <==> Same(false, p.value, Lookup(g, p.key))
      {
        assert Field(p.key, Lookup(g, p.key)) in g;
        ProtoFree(p.value, Lookup(g, p.key));
      }
    case _ =>
  }

  /** Between values without members named `__proto__`, canonical text loses nothing. */
  lemma ProtoFreeExact(a: Value, b: Value)
    requires Real(a) && Real(b) && Canonicalize(a).Some? && Canonicalize(b).Some?
    requires NoProto(a) && NoProto(b)
    ensures Canonicalize(a) == Canonicalize(b) <==> Same(true, a, b)
  {
    CanonicalExactness(a, b);
    ProtoFree(a, b);
  }

  /** Such a member is lost: a value is told from all values without them exactly when it has
      none itself. */
  lemma ProtoIsTheOnlyLoss(a: Value)
    requires Real(a) && Canonicalize(a).Some?
    ensures NoProto(a) <==>
      forall b :: Real(b) && NoProto(b) && Canonicalize(b) == Canonicalize(a) ==> Same(true, a, b)
  {
    if NoProto(a) {
      forall b | Real(b) && NoProto(b) && Canonicalize(b) == Canonicalize(a) ensures Same(true, a, b) {
        ProtoFreeExact(a, b);
      }
    } else {
      var b := Strip(a);
      StripSame(a);
      CanonicalExactness(a, b);
      if Same(true, a, b) {
        ProtoSeen(a, b);
        assert false;
      }
    }
  }

  // ----- key order

  lemma {:induction false} SameReflexive(proto: bool, v: Value)
    requires Real(v)
    ensures Same(proto, v, v)
    decreases v
  {
    match v
    case Sequence(items) =>
      forall i | 0 <= i < |items| ensures Same(proto, items[i], items[i]) {
        SameReflexive(proto, items[i]);
      }
    case Record(fields) =>
      forall f | f in fields ensures Lookup(fields, f.key) == f.value && Same(proto, f.value, f.value) {
        LookupField(fields, f);
        SameReflexive(proto, f.value);
      }
    case _ =>
  }

  /** The order in which a record lists its keys never shows in its canonical text. */
  lemma KeyOrderIrrelevant(f: seq<Field>, g: seq<Field>)
    requires Real(Record(f)) && Real(Record(g)) && forall p :: p in f <==> p in g
    ensures Canonicalize(Record(f)) == Canonicalize(Record(g))
  {
    OrderFieldsAt(f);
    OrderFieldsAt(g);
    if OrderFields(f).Some? {
      forall p | p in f
        ensures Lookup(g, p.key) == p.value && Lookup(f, p.key) == p.value && Same(false, p.value, p.value)
      {
        LookupField(f, p);
        LookupField(g, p);
        SameReflexive(false, p.value);
      }
      assert Same(false, Record(f), Record(g));
      CanonicalExactness(Record(f), Record(g));
    }
  }

  // ----- values that their text determines

  predicate HoldsRecord(v: Value) {
    match v
    case Sequence(items) => exists x | x in items :: HoldsRecord(x)
    case Record(_) => true
    case _ => false
  }

  function Drop(fields: seq<Field>): (r: seq<Field>)
    ensures forall f :: f in r <==> f in fields && f.key != PROTO
  {
    if fields == [] then []
    else
      assert fields == [fields[0]] + fields[1..];
      if fields[0].key == PROTO then Drop(fields[1..]) else [fields[0]] + Drop(fields[1..])
  }

  /** The fields with a `__proto__` member more, or without the one they have. */
  function Toggle(fields: seq<Field>): seq<Field> {
    Drop(fields) + if Lookup(fields, PROTO).Absent? then [Field(PROTO, Nothing)] else []
  }

  /** Another value with the same text, if there is a record in it. */
  function Twin(v: Value): Value
    decreases v
  {
    match v
    case Sequence(items) => Sequence(TwinItems(items))
    case Record(fields) => Record(Toggle(fields))
    case _ => v
  }

  function TwinItems(items: seq<Value>): (r: seq<Value>)
    ensures |r| == |items| && forall i :: 0 <= i < |items| ==> r[i] == Twin(items[i])
    decreases items
  {
    if items == [] then [] else [Twin(items[0])] + TwinItems(items[1..])
  }

  lemma {:induction false} DropDistinct(fields: seq<Field>)
    requires Distinct(fields)
    ensures Distinct(Drop(fields))
  {
    if fields != [] {
      DropDistinct(fields[1..]);
      var r := Drop(fields[1..]);
      forall j | 0 <= j < |r| ensures r[j].key != fields[0].key {
        assert r[j] in r;
        var i :| 1 <= i < |fields| && fields[i] == r[j];
      }
    }
  }

  lemma {:induction false} ToggleLookup(fields: seq<Field>, k: Text)
    ensures Lookup(Drop(fields), k) == if k == PROTO then Absent else Lookup(fields, k)
    ensures Lookup(Drop(fields) + [Field(PROTO, Nothing)], k) == if k == PROTO then Nothing else Lookup(fields, k)
  {
    if fields != [] {
      ToggleLookup(fields[1..], k);
      if fields[0].key != PROTO {
        assert (Drop(fields) + [Field(PROTO, Nothing)])[1..] == Drop(fields[1..]) + [Field(PROTO, Nothing)];
      }
    }
  }

  lemma ToggleFinds(fields: seq<Field>, k: Text)
    ensures Lookup(Toggle(fields), k) ==
      if k != PROTO then Lookup(fields, k) else if Lookup(fields, PROTO).Absent? then Nothing else Absent
  {
    ToggleLookup(fields, k);
    assert Drop(fields) + [] == Drop(fields);
  }

  lemma ToggleDistinct(fields: seq<Field>)
    requires Distinct(fields)
    ensures Distinct(Toggle(fields))
    ensures forall f :: f in Toggle(fields) ==> f in fields || f == Field(PROTO, Nothing)
  {
    DropDistinct(fields);
    forall i | 0 <= i < |Drop(fields)| ensures Drop(fields)[i].key != PROTO {
      assert Drop(fields)[i] in Drop(fields);
    }
  }

  lemma ToggleDiffers(fields: seq<Field>)
    requires Distinct(fields)
    ensures !Same(true, Record(fields), Record(Toggle(fields)))
  {
    ToggleFinds(fields, PROTO);
    var p := Lookup(fields, PROTO);
    if p.Absent? {
      assert Field(PROTO, Nothing) in Toggle(fields) && Counts(true, Field(PROTO, Nothing));
    } else {
      assert Field(PROTO, p) in fields && Counts(true, Field(PROTO, p));
    }
  }

  lemma TwinRecord(fields: seq<Field>)
    requires Real(Record(fields))
    ensures Twins(Record(fields), Record(Toggle(fields)))
  {
    var r := Toggle(fields);
    ToggleDistinct(fields);
    ToggleDiffers(fields);
    RecordOrders(fields);
    RecordOrders(r);
    forall k ensures k != PROTO ==> Lookup(r, k) == Lookup(fields, k) {
      ToggleFinds(fields, k);
    }
    forall p | p in fields && Counts(false, p) ensures Same(false, p.value, Lookup(r, p.key)) {
      LookupField(fields, p);
      SameReflexive(false, p.value);
    }
    RecordsSame(false, fields, r);
  }

  /** What a twin is to its value. */
  ghost predicate Twins(v: Value, w: Value) {
    Real(w) && Same(false, v, w) && (HoldsRecord(v) ==> !Same(true, v, w)) && (Order(v).Some? ==> Order(w).Some?)
  }

  lemma TwinSequence(x: seq<Value>, y: seq<Value>)
    requires |x| == |y| && forall i :: 0 <= i < |x| ==> Twins(x[i], y[i])
    ensures Twins(Sequence(x), Sequence(y))
  {
    OrderItemsAt(x);
    OrderItemsAt(y);
    if HoldsRecord(Sequence(x)) {
      SequenceDiffers(x, y);
    }
  }

  lemma SequenceDiffers(x: seq<Value>, y: seq<Value>)
    requires |x| == |y| && HoldsRecord(Sequence(x))
    requires forall i :: 0 <= i < |x| && HoldsRecord(x[i]) ==> !Same(true, x[i], y[i])
    ensures !Same(true, Sequence(x), Sequence(y))
  {
    var v :| v in x && HoldsRecord(v);
    var i :| 0 <= i < |x| && x[i] == v;
  }

  lemma {:induction false} TwinSame(v: Value)
    requires Real(v)
    ensures Twins(v, Twin(v))
    decreases v
  {
    match v
    case Sequence(items) =>
      forall i | 0 <= i < |items| ensures Twins(items[i], Twin(items[i])) {
        TwinSame(items[i]);
      }
      TwinSequence(items, TwinItems(items));
    case Record(fields) => TwinRecord(fields);
    case _ =>
  }

  lemma {:induction false} PlainSame(a: Value, b: Value)
    requires !HoldsRecord(a) && Same(false, a, b)
    ensures Same(true, a, b)
    decreases a
  {
    match (a, b)
    case (Sequence(x), Sequence(y)) =>
      forall i | 0 <= i < |x| ensures Same(true, x[i], y[i]) {
        PlainSame(x[i], y[i]);
      }
    case _ =>
  }

  /** Which values their text determines among all values: those without a record, since any
      record may or may not have had a `__proto__` member. */
  lemma TextDeterminesIff(a: Value)
    requires Real(a) && Canonicalize(a).Some?
    ensures !HoldsRecord(a) <==> forall b :: Real(b) && Canonicalize(b) == Canonicalize(a) ==> Same(true, a, b)
  {
    if HoldsRecord(a) {
      TwinSame(a);
      CanonicalExactness(a, Twin(a));
    } else {
      forall b | Real(b) && Canonicalize(b) == Canonicalize(a) ensures Same(true, a, b) {
        CanonicalExactness(a, b);
        PlainSame(a, b);
      }
    }
  }
}
