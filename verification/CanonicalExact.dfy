/**
 What equality of canonical text means, exactly.
 */
module CanonicalExact {
  import opened Utf16
  import opened JsonText
  import opened JsonRoundTrip
  import opened Canonical

  // ----- equality of values, by structure

  /** A value that is written as a single token or string. */
  function Scalar(v: Value): Option<Json> {
    match v
    case Sequence(_) => None
    case Record(_) => None
    case _ => Order(v)
  }

  predicate Counts(proto: bool, f: Field) {
    !f.value.Absent? && (proto || f.key != PROTO)
  }

  /** Equal up to key order and dropped undefined members; an undefined array slot is null, a
      bigint and a date are their strings. `proto`: whether a member named `__proto__` counts. */
  predicate Same(proto: bool, a: Value, b: Value)
    decreases a
  {
    match (a, b)
    case (Sequence(x), Sequence(y)) =>
      |x| == |y| && forall i :: 0 <= i < |x| ==> Same(proto, x[i], y[i])
    case (Record(f), Record(g)) =>
      && (forall p | p in f :: Counts(proto, p) ==>
           !Lookup(g, p.key).Absent? && Same(proto, p.value, Lookup(g, p.key)))
      && (forall q | q in g :: Counts(proto, q) ==> !Lookup(f, q.key).Absent?)
    case _ => !a.Sequence? && !a.Record? && !b.Sequence? && !b.Record? && Scalar(a) == Scalar(b)
  }

  // ----- filling an object

  lemma IndexOrder(a: Text, b: Text)
    ensures a == b || IndexLess(a, b) || IndexLess(b, a)
  {
    LessTotal(a, b);
  }

  lemma IndexTransitive(a: Text, b: Text, c: Text)
    requires IndexLess(a, b) && IndexLess(b, c)
    ensures IndexLess(a, c) && a != c
  {
    LessIrreflexive(a);
    if |a| == |b| == |c| {
      LessTransitive(a, b, c);
    }
  }

  lemma OwnBeforeOver(k: Text, e: Text, l: Text)
    requires k != e && !OwnBefore(e, k) && OwnBefore(e, l)
    ensures OwnBefore(k, e) && OwnBefore(k, l)
  {
    IndexOrder(k, e);
    if IsIndex(e) && IsIndex(l) {
      IndexTransitive(k, e, l);
    }
  }

  lemma {:induction false} PutOrdered(ms: seq<Member>, key: Text, value: Json)
    requires OwnOrdered(ms)
    ensures OwnOrdered(Put(ms, key, value))
    ensures forall m :: m in Put(ms, key, value) ==> m in ms || m == Member(key, value)
  {
    if ms == [] {
    } else if ms[0].key == key {
      assert ms == [ms[0]] + ms[1..];
    } else if !OwnBefore(ms[0].key, key) {
      forall j | 0 <= j < |ms| ensures OwnBefore(key, ms[j].key) {
        if j == 0 {
          IndexOrder(key, ms[0].key);
        } else {
          OwnBeforeOver(key, ms[0].key, ms[j].key);
        }
      }
    } else {
      PutOrdered(ms[1..], key, value);
      var r := Put(ms[1..], key, value);
      forall j | 0 <= j < |r| ensures OwnBefore(ms[0].key, r[j].key) {
        assert r[j] in r;
        if r[j] in ms[1..] {
          var i :| 1 <= i < |ms| && ms[i] == r[j];
        }
      }
      assert ms == [ms[0]] + ms[1..];
    }
  }

  lemma {:induction false} FindPut(ms: seq<Member>, key: Text, value: Json, k: Text)
    requires OwnOrdered(ms)
    ensures Find(Put(ms, key, value), k) == if k == key then Some(value) else Find(ms, k)
  {
    if ms != [] {
      FindPut(ms[1..], key, value, k);
      var r := Put(ms, key, value);
      if ms[0].key == key || !OwnBefore(ms[0].key, key) {
        assert r[1..] == if ms[0].key == key then ms[1..] else ms;
      } else {
        assert r[1..] == Put(ms[1..], key, value);
      }
    }
  }

  lemma {:induction false} FillFinds(ms: seq<Member>, keys: seq<Text>, k: Text)
    ensures OwnOrdered(Fill(ms, keys))
    ensures Find(Fill(ms, keys), k) == if k in keys && k != PROTO then Find(ms, k) else None
    decreases |keys|
  {
    if keys != [] {
      var front, key := keys[..|keys| - 1], keys[|keys| - 1];
      FillFinds(ms, front, k);
      assert keys == front + [key];
      if Find(ms, key).Some? {
        PutOrdered(Fill(ms, front), key, Find(ms, key).value);
        FindPut(Fill(ms, front), key, Find(ms, key).value, k);
      }
    }
  }

  lemma {:induction false} FillMembers(ms: seq<Member>, keys: seq<Text>)
    ensures forall m :: m in Fill(ms, keys) ==> m in ms
    decreases |keys|
  {
    if keys != [] {
      var front, key := keys[..|keys| - 1], keys[|keys| - 1];
      FillMembers(ms, front);
      if Find(ms, key).Some? {
        FillFinds(ms, front, key);
        PutOrdered(Fill(ms, front), key, Find(ms, key).value);
        FoundMember(ms, key);
      }
    }
  }

  lemma {:induction false} FoundMember(ms: seq<Member>, key: Text)
    requires Find(ms, key).Some?
    ensures Member(key, Find(ms, key).value) in ms
  {
    if ms[0].key != key {
      FoundMember(ms[1..], key);
    }
  }

  // ----- the loop's result depends on what is found under each key, not on the key list

  function Present(ms: seq<Member>, keys: seq<Text>): seq<Text> {
    if keys == [] then []
    else
      var rest := Present(ms, keys[1..]);
      if Find(ms, keys[0]).Some? && keys[0] != PROTO then [keys[0]] + rest else rest
  }

  lemma {:induction false} PresentAppend(ms: seq<Member>, a: seq<Text>, b: seq<Text>)
    ensures Present(ms, a + b) == Present(ms, a) + Present(ms, b)
  {
    if a == [] {
      assert a + b == b;
    } else {
      assert (a + b)[1..] == a[1..] + b;
      PresentAppend(ms, a[1..], b);
    }
  }

  lemma {:induction false} FillPresent(ms: seq<Member>, keys: seq<Text>)
    ensures Fill(ms, keys) == Fill(ms, Present(ms, keys))
    decreases |keys|
  {
    if keys != [] {
      var front, key := keys[..|keys| - 1], keys[|keys| - 1];
      FillPresent(ms, front);
      assert keys == front + [key];
      PresentAppend(ms, front, [key]);
      var p := Present(ms, front);
      assert Present(ms, [key]) == if Find(ms, key).Some? && key != PROTO then [key] else [];
      assert (p + [key])[..|p|] == p;
      assert p + [] == p;
    }
  }

  lemma {:induction false} FillCongruent(ms: seq<Member>, ns: seq<Member>, keys: seq<Text>)
    requires forall k :: k in keys ==> Find(ms, k) == Find(ns, k)
    ensures Fill(ms, keys) == Fill(ns, keys)
    decreases |keys|
  {
    if keys != [] {
      FillCongruent(ms, ns, keys[..|keys| - 1]);
    }
  }

  lemma {:induction false} PresentSorted(ms: seq<Member>, keys: seq<Text>)
    requires Sorted(keys)
    ensures Sorted(Present(ms, keys))
    ensures forall k :: k in Present(ms, keys) <==> k in keys && Find(ms, k).Some? && k != PROTO
    ensures NoRepeats(keys) ==> NoRepeats(Present(ms, keys))
  {
    if keys != [] {
      PresentSorted(ms, keys[1..]);
      assert keys == [keys[0]] + keys[1..];
      var rest := Present(ms, keys[1..]);
      forall j | 0 <= j < |rest| ensures LessEq(keys[0], rest[j]) {
        assert rest[j] in keys[1..];
        SortedHead(keys, rest[j]);
      }
      if NoRepeats(keys) {
        assert NoRepeats(keys[1..]);
        forall j | 0 <= j < |rest| ensures keys[0] != rest[j] {
          assert rest[j] in keys[1..];
          var i :| 1 <= i < |keys| && keys[i] == rest[j];
        }
      }
    }
  }

  ghost predicate NoRepeats(keys: seq<Text>) {
    forall i, j :: 0 <= i < j < |keys| ==> keys[i] != keys[j]
  }

  lemma {:induction false} CountOnce(keys: seq<Text>, k: Text)
    requires NoRepeats(keys)
    ensures multiset(keys)[k] == if k in keys then 1 else 0
  {
    if keys != [] {
      CountOnce(keys[1..], k);
      assert keys == [keys[0]] + keys[1..];
    }
  }

  lemma SameSetOneOrder(a: seq<Text>, b: seq<Text>)
    requires Sorted(a) && Sorted(b) && NoRepeats(a) && NoRepeats(b)
    requires forall k :: k in a <==> k in b
    ensures a == b
  {
    forall k ensures multiset(a)[k] == multiset(b)[k] {
      CountOnce(a, k);
      CountOnce(b, k);
    }
    assert multiset(a) == multiset(b);
    SortedUnique(a, b);
  }

  lemma SortedNoRepeats(fields: seq<Field>)
    requires Distinct(fields)
    ensures NoRepeats(Sort(Keys(fields))) && Sorted(Sort(Keys(fields)))
    ensures forall k :: k in Sort(Keys(fields)) <==> k in Keys(fields)
  {
    var keys, sorted := Keys(fields), Sort(Keys(fields));
    SortSorts(keys);
    forall k ensures k in sorted <==> k in keys {
      SameElements(sorted, keys, k);
    }
    forall i, j | 0 <= i < j < |sorted| ensures sorted[i] != sorted[j] {
      if sorted[i] == sorted[j] {
        CountTwice(sorted, i, j);
        CountOnce(keys, sorted[i]);
      }
    }
  }

  lemma CountTwice(s: seq<Text>, i: nat, j: nat)
    requires i < j < |s| && s[i] == s[j]
    ensures multiset(s)[s[i]] >= 2
  {
    assert s == s[..j] + s[j..];
    assert s[i] == s[..j][i] && s[..j][i] in multiset(s[..j]);
    assert s[j] == s[j..][0] && s[j..][0] in multiset(s[j..]);
  }

  lemma FoundKey(fields: seq<Field>, k: Text)
    requires !Lookup(fields, k).Absent?
    ensures k in Keys(fields)
  {
    var f := Field(k, Lookup(fields, k));
    var i :| 0 <= i < |fields| && fields[i] == f;
    assert Keys(fields)[i] == k;
  }

  /** The same value is found under every key that an assignment can set. */
  ghost predicate Agree(ms: seq<Member>, ns: seq<Member>) {
    forall k :: k != PROTO ==> Find(ms, k) == Find(ns, k)
  }

  lemma FillFromFound(f: seq<Field>, g: seq<Field>, ms: seq<Member>, ns: seq<Member>)
    requires Distinct(f) && Distinct(g) && OrderFields(f) == Some(ms) && OrderFields(g) == Some(ns)
    requires Agree(ms, ns)
    ensures Fill(ms, Sort(Keys(f))) == Fill(ns, Sort(Keys(g)))
  {
    var a, b := Sort(Keys(f)), Sort(Keys(g));
    SortedNoRepeats(f);
    SortedNoRepeats(g);
    FillPresent(ms, a);
    FillPresent(ns, b);
    PresentSorted(ms, a);
    PresentSorted(ns, b);
    forall k ensures k in Present(ms, a) <==> k in Present(ns, b) {
      if Find(ms, k).Some? {
        KeyOfFound(f, k);
      }
      if Find(ns, k).Some? {
        KeyOfFound(g, k);
      }
    }
    SameSetOneOrder(Present(ms, a), Present(ns, b));
    FillCongruent(ms, ns, Present(ms, a));
  }

  lemma FoundFromFill(f: seq<Field>, g: seq<Field>, ms: seq<Member>, ns: seq<Member>, k: Text)
    requires Distinct(f) && Distinct(g) && OrderFields(f) == Some(ms) && OrderFields(g) == Some(ns)
    requires Fill(ms, Sort(Keys(f))) == Fill(ns, Sort(Keys(g))) && k != PROTO
    ensures Find(ms, k) == Find(ns, k)
  {
    SortedNoRepeats(f);
    SortedNoRepeats(g);
    if Find(ms, k).Some? {
      KeyOfFound(f, k);
    }
    if Find(ns, k).Some? {
      KeyOfFound(g, k);
    }
    FillFinds(ms, Sort(Keys(f)), k);
    FillFinds(ns, Sort(Keys(g)), k);
  }

  /** The filled object is a function of what lies under each key, and tells it. */
  lemma FillDetermined(f: seq<Field>, g: seq<Field>, ms: seq<Member>, ns: seq<Member>)
    requires Distinct(f) && Distinct(g) && OrderFields(f) == Some(ms) && OrderFields(g) == Some(ns)
    ensures Fill(ms, Sort(Keys(f))) == Fill(ns, Sort(Keys(g))) <==> Agree(ms, ns)
  {
    if Agree(ms, ns) {
      FillFromFound(f, g, ms, ns);
    }
    if Fill(ms, Sort(Keys(f))) == Fill(ns, Sort(Keys(g))) {
      forall k | k != PROTO ensures Find(ms, k) == Find(ns, k) {
        FoundFromFill(f, g, ms, ns, k);
      }
    }
  }

  lemma KeyOfFound(f: seq<Field>, k: Text)
    requires Distinct(f) && OrderFields(f).Some? && Find(OrderFields(f).value, k).Some?
    ensures k in Keys(f)
  {
    FindOrdered(f, k);
    FoundKey(f, k);
  }

  /** The members of the ordered object. */
  function Members(f: seq<Field>): seq<Member>
    requires OrderFields(f).Some?
  {
    Fill(OrderFields(f).value, Sort(Keys(f)))
  }

  lemma MemberFound(f: seq<Field>, k: Text)
    requires Distinct(f) && OrderFields(f).Some? && k != PROTO
    ensures Find(Members(f), k) == Find(OrderFields(f).value, k)
    ensures Find(Members(f), k).Some? <==> !Lookup(f, k).Absent?
  {
    var ms := OrderFields(f).value;
    OrderFieldsAt(f);
    SortedNoRepeats(f);
    FillFinds(ms, Sort(Keys(f)), k);
    FindOrdered(f, k);
    if Find(ms, k).Some? {
      KeyOfFound(f, k);
    }
  }

  lemma OrderedRecord(f: seq<Field>)
    requires OrderFields(f).Some?
    ensures Order(Record(f)) == Some(Obj(Members(f)))
  {
  }

  // ----- the ordered value is the value up to `Same`

  lemma {:induction false} OrderExact(a: Value, b: Value)
    requires Real(a) && Real(b) && Order(a).Some? && Order(b).Some?
    ensures Order(a) == Order(b) <==> Same(false, a, b)
    decreases a
  {
    match (a, b)
    case (Sequence(x), Sequence(y)) =>
      OrderItemsAt(x);
      OrderItemsAt(y);
      forall i | 0 <= i < |x| && i < |y| ensures Order(x[i]) == Order(y[i]) <==> Same(false, x[i], y[i]) {
        OrderExact(x[i], y[i]);
      }
      if Same(false, a, b) {
        assert OrderItems(x).value == OrderItems(y).value;
      }
    case (Record(f), Record(g)) =>
      RecordsExact(f, g);
      FillDetermined(f, g, OrderFields(f).value, OrderFields(g).value);
    case _ =>
  }

  lemma {:induction false} RecordsExact(f: seq<Field>, g: seq<Field>)
    requires Real(Record(f)) && Real(Record(g)) && OrderFields(f).Some? && OrderFields(g).Some?
    ensures Agree(OrderFields(f).value, OrderFields(g).value) <==> Same(false, Record(f), Record(g))
    decreases f
  {
    var ms, ns := OrderFields(f).value, OrderFields(g).value;
    OrderFieldsAt(f);
    OrderFieldsAt(g);
    forall k ensures Find(ms, k) == if Lookup(f, k).Absent? then None else Order(Lookup(f, k)) {
      FindOrdered(f, k);
    }
    forall k ensures Find(ns, k) == if Lookup(g, k).Absent? then None else Order(Lookup(g, k)) {
      FindOrdered(g, k);
    }
    forall p | p in f && !Lookup(g, p.key).Absent?
      ensures Lookup(f, p.key) == p.value
      ensures Order(p.value) == Order(Lookup(g, p.key)) <==> Same(false, p.value, Lookup(g, p.key))
    {
      LookupField(f, p);
      OrderExact(p.value, Lookup(g, p.key));
    }
    forall p | p in f ensures Lookup(f, p.key) == p.value {
      LookupField(f, p);
    }
    forall q | q in g ensures Lookup(g, q.key) == q.value {
      LookupField(g, q);
    }
    if Same(false, Record(f), Record(g)) {
      forall k | k != PROTO ensures Find(ms, k) == Find(ns, k) {
        assert !Lookup(f, k).Absent? ==> Counts(false, Field(k, Lookup(f, k)));
        assert !Lookup(g, k).Absent? ==> Counts(false, Field(k, Lookup(g, k)));
      }
    }
    if Agree(ms, ns) {
      forall p | p in f && Counts(false, p)
        ensures !Lookup(g, p.key).Absent? && Same(false, p.value, Lookup(g, p.key))
      {
        assert Find(ms, p.key) == Find(ns, p.key);
      }
      forall q | q in g && Counts(false, q) ensures !Lookup(f, q.key).Absent? {
        assert Find(ms, q.key) == Find(ns, q.key);
      }
      assert Same(false, Record(f), Record(g));
    }
  }

  // ----- the printed value is proper JSON

  function AsIs(t: Text): Text { t }

  lemma {:induction false} OrderProper(v: Value)
    requires Real(v) && Order(v).Some?
    ensures Proper(AsIs, Order(v).value)
    decreases v
  {
    match v
    case Sequence(items) =>
      OrderItemsAt(items);
      forall j | j in OrderItems(items).value ensures Proper(AsIs, j) {
        var i :| 0 <= i < |items| && OrderItems(items).value[i] == j;
        OrderProper(items[i]);
      }
    case Record(fields) =>
      var ms := OrderFields(fields).value;
      FieldsProper(fields);
      FillMembers(ms, Sort(Keys(fields)));
      FillFinds(ms, Sort(Keys(fields)), []);
    case _ =>
  }

  lemma {:induction false} FieldsProper(fields: seq<Field>)
    requires (forall f | f in fields :: Real(f.value)) && OrderFields(fields).Some?
    ensures forall m | m in OrderFields(fields).value :: Proper(AsIs, m.value)
    decreases fields
  {
    if fields != [] {
      FieldsProper(fields[1..]);
      if !fields[0].value.Absent? {
        OrderProper(fields[0].value);
      }
    }
  }

  /** A value that JSON cannot carry, at a place that would be printed. */
  predicate HoldsUnprintable(v: Value) {
    match v
    case NotFinite => true
    case InvalidDate => true
    case Callable => true
    case Sequence(items) => exists x | x in items :: HoldsUnprintable(x)
    case Record(fields) => exists f | f in fields :: HoldsUnprintable(f.value)
    case _ => false
  }

  /** Canonicalizing throws exactly where a number that is not finite, an invalid date, a
      function or a symbol is in the value, at any depth. */
  lemma {:induction false} ThrowsExact(v: Value)
    ensures Canonicalize(v).None? <==> HoldsUnprintable(v)
    decreases v
  {
    match v
    case Sequence(items) =>
      OrderItemsAt(items);
      forall x | x in items ensures Order(x).None? <==> HoldsUnprintable(x) {
        ThrowsExact(x);
      }
      if Order(v).None? {
        var k :| 0 <= k < |items| && Order(items[k]).None?;
        assert items[k] in items;
      }
    case Record(fields) =>
      OrderFieldsAt(fields);
      forall f | f in fields ensures Order(f.value).None? <==> HoldsUnprintable(f.value) {
        ThrowsExact(f.value);
      }
    case _ =>
  }

  /** Canonical text is unambiguous: two values that canonicalize have the same text exactly
      when they are equal up to key order, undefined members and members named `__proto__`. */
  lemma CanonicalExactness(a: Value, b: Value)
    requires Real(a) && Real(b) && Canonicalize(a).Some? && Canonicalize(b).Some?
    ensures Canonicalize(a) == Canonicalize(b) <==> Same(false, a, b)
  {
    OrderExact(a, b);
    OrderProper(a);
    OrderProper(b);
    if Canonicalize(a) == Canonicalize(b) {
      PrintInjective(AsIs, COMPACT, Order(a).value, Order(b).value);
    }
  }
}
