/**
 How the gate compares two claim objects: `normalizeObject`, `classifyConflict`.
 */
module Conflict {
  import opened Utf16
  import opened JsonText
  import opened JsonRoundTrip
  import opened Canonical
  import opened CanonicalExact

  datatype Rel = Duplicates | Narrows | Contradicts | Supersedes

  /** The parts of the JavaScript runtime that the comparison leans on, as arbitrary
      functions: `Number(text)` where it is finite, the number a JSON token denotes (as its
      printed text), and `text.trim().toLowerCase()`. */
  datatype Runtime = Runtime(number: Text -> Option<real>, token: Text -> Text, fold: Text -> Text)

  /** For values that JSON can carry; a stored object is one. */
  function NormalizeObject(js: Runtime, value: Value): Text {
    match value
    case Absent => []
    case Nothing => []
    case String(s) => js.fold(s)
    case Number(t) => t
    case Truth(b) => if b then Lit("true") else Lit("false")
    case _ => (match Canonicalize(value) case Some(t) => t case None => [])
  }

  predicate LooksStructured(t: Text) {
    t != [] && (t[0] == OPEN_BRACE || t[0] == OPEN_BRACKET)
  }

  predicate NumericEqual(js: Runtime, left: Text, right: Text) {
    js.number(left).Some? && js.number(right).Some? && js.number(left) == js.number(right)
  }

  function MemberKeys(ms: seq<Member>): (keys: seq<Text>)
    ensures |keys| == |ms| && forall i :: 0 <= i < |ms| ==> keys[i] == ms[i].key
    ensures forall k :: k in keys <==> Find(ms, k).Some?
  {
    if ms == [] then [] else [ms[0].key] + MemberKeys(ms[1..])
  }

  predicate SharedKey(left: seq<Member>, right: seq<Member>, k: Text) {
    Find(left, k).Some? && Find(right, k).Some?
  }

  predicate Agrees(left: seq<Member>, right: seq<Member>, k: Text)
    requires SharedKey(left, right, k)
  {
    Print(COMPACT, Find(left, k).value, 0) == Print(COMPACT, Find(right, k).value, 0)
  }

  /** Two plain objects under one claim key. */
  ghost function ClassifyObjects(left: seq<Member>, right: seq<Member>): Option<Rel> {
    if !exists k :: SharedKey(left, right, k) then None
    else if exists k :: SharedKey(left, right, k) && !Agrees(left, right, k) then Some(Contradicts)
    else if |left| == |right| then Some(Duplicates)
    else if |right| > |left| then Some(Supersedes)
    else Some(Narrows)
  }

  ghost function Classify(js: Runtime, existing: Text, candidate: Text): Option<Rel> {
    if existing == candidate then Some(Duplicates)
    else if LooksStructured(existing) && LooksStructured(candidate) then
      match (Parse(js.token, existing), Parse(js.token, candidate))
      case (Some(Obj(left)), Some(Obj(right))) => ClassifyObjects(left, right)
      case _ => None
    else if LooksStructured(existing) || LooksStructured(candidate) then None
    else if NumericEqual(js, existing, candidate) then Some(Duplicates)
    else Some(Contradicts)
  }

  method ClassifyConflict(js: Runtime, existing: Text, candidate: Text) returns (r: Option<Rel>)
    ensures r == Classify(js, existing, candidate)
  {
    if existing == candidate {
      return Some(Duplicates);
    }
    var existingIsObject, candidateIsObject := LooksStructured(existing), LooksStructured(candidate);
    if existingIsObject && candidateIsObject {
      match (Parse(js.token, existing), Parse(js.token, candidate)) {
        case (Some(Obj(left)), Some(Obj(right))) =>
          r := CompareObjects(left, right);
          return;
        case _ =>
      }
    }
    if !existingIsObject && !candidateIsObject {
      return Some(if NumericEqual(js, existing, candidate) then Duplicates else Contradicts);
    }
    return None;
  }

  method CompareObjects(left: seq<Member>, right: seq<Member>) returns (r: Option<Rel>)
    ensures r == ClassifyObjects(left, right)
  {
    var leftKeys, rightKeys := MemberKeys(left), MemberKeys(right);
    var shared := SharedKeys(left, right);
    if |shared| == 0 {
      return None;
    }
    assert SharedKey(left, right, shared[0]) by { assert shared[0] in shared; }
    var identicalShared := CompareShared(left, right, shared);
    if identicalShared && |leftKeys| == |rightKeys| {
      return Some(Duplicates);
    }
    if identicalShared {
      return Some(if |rightKeys| > |leftKeys| then Supersedes else Narrows);
    }
    return Some(Contradicts);
  }

  /** `leftKeys.filter((key) => rightKeys.includes(key))` */
  method SharedKeys(left: seq<Member>, right: seq<Member>) returns (shared: seq<Text>)
    ensures forall k :: k in shared <==> SharedKey(left, right, k)
  {
    var leftKeys, rightKeys := MemberKeys(left), MemberKeys(right);
    shared := [];
    for i := 0 to |leftKeys|
      invariant forall k :: k in shared <==> k in leftKeys[..i] && k in rightKeys
    {
      if leftKeys[i] in rightKeys {
        shared := shared + [leftKeys[i]];
      }
    }
    assert leftKeys[..|leftKeys|] == leftKeys;
  }

  /** `identicalShared`; `conflictingShared` is its negation throughout. */
  method CompareShared(left: seq<Member>, right: seq<Member>, shared: seq<Text>) returns (identical: bool)
    requires forall k :: k in shared ==> SharedKey(left, right, k)
    ensures identical <==> forall k :: k in shared ==> Agrees(left, right, k)
  {
    identical := true;
    for i := 0 to |shared|
      invariant identical <==> forall k :: k in shared[..i] ==> SharedKey(left, right, k) && Agrees(left, right, k)
    {
      assert shared[i] in shared && SharedKey(left, right, shared[i]);
      assert forall k :: k in shared[..i + 1] <==> k in shared[..i] || k == shared[i];
      if Print(COMPACT, Find(left, shared[i]).value, 0) != Print(COMPACT, Find(right, shared[i]).value, 0) {
        assert !Agrees(left, right, shared[i]);
        identical := false;
      }
    }
    assert shared[..|shared|] == shared;
  }

  // ----- laws of the comparison

  /** Contradiction does not depend on which of the two was there first. */
  lemma ContradictionSymmetric(js: Runtime, x: Text, y: Text)
    ensures Classify(js, x, y) == Some(Contradicts) <==> Classify(js, y, x) == Some(Contradicts)
  {
    if x != y && LooksStructured(x) && LooksStructured(y) {
      match (Parse(js.token, x), Parse(js.token, y)) {
        case (Some(Obj(left)), Some(Obj(right))) => ObjectsSymmetric(left, right);
        case _ =>
      }
    }
  }

  lemma ObjectsSymmetric(left: seq<Member>, right: seq<Member>)
    ensures ClassifyObjects(left, right) == Some(Contradicts) <==> ClassifyObjects(right, left) == Some(Contradicts)
  {
    if k :| SharedKey(left, right, k) && !Agrees(left, right, k) {
      assert SharedKey(right, left, k) && !Agrees(right, left, k);
    }
    if k :| SharedKey(right, left, k) && !Agrees(right, left, k) {
      assert SharedKey(left, right, k) && !Agrees(left, right, k);
    }
  }

  /** Nothing contradicts itself. */
  lemma SelfDuplicates(js: Runtime, x: Text)
    ensures Classify(js, x, x) == Some(Duplicates)
  {
  }

  /** On scalars the comparison is a partition: any two either duplicate or contradict, and
      duplication is transitive. */
  lemma ScalarPartition(js: Runtime, x: Text, y: Text, z: Text)
    requires !LooksStructured(x) && !LooksStructured(y) && !LooksStructured(z)
    ensures Classify(js, x, y) == Some(Duplicates) <==> Classify(js, x, y) != Some(Contradicts)
    ensures Classify(js, x, y) == Some(Duplicates) && Classify(js, y, z) == Some(Duplicates) ==>
      Classify(js, x, z) == Some(Duplicates)
  {
  }

  // ----- when objects called duplicates are the same

  /** The same members are there; `__proto__` is never among those compared. */
  ghost predicate SameKeys(f: seq<Field>, g: seq<Field>) {
    forall k :: k != PROTO ==> (Lookup(f, k).Absent? <==> Lookup(g, k).Absent?)
  }

  lemma AgreedValue(num: Text -> Text, left: seq<Member>, right: seq<Member>, k: Text)
    requires Proper(num, Obj(left)) && Proper(num, Obj(right)) && SharedKey(left, right, k) && Agrees(left, right, k)
    ensures Find(left, k) == Find(right, k)
  {
    FoundMember(left, k);
    FoundMember(right, k);
    PrintInjective(num, COMPACT, Find(left, k).value, Find(right, k).value);
  }

  /** Objects called duplicates that have the same keys are one object. */
  lemma SameKeysSameObject(num: Text -> Text, f: seq<Field>, g: seq<Field>)
    requires Distinct(f) && Distinct(g) && OrderFields(f).Some? && OrderFields(g).Some?
    requires Proper(num, Obj(Members(f))) && Proper(num, Obj(Members(g)))
    requires ClassifyObjects(Members(f), Members(g)) == Some(Duplicates) && SameKeys(f, g)
    ensures Members(f) == Members(g)
  {
    var left, right := Members(f), Members(g);
    forall k | k != PROTO ensures Find(OrderFields(f).value, k) == Find(OrderFields(g).value, k) {
      MemberFound(f, k);
      MemberFound(g, k);
      if SharedKey(left, right, k) {
        assert Agrees(left, right, k);
        AgreedValue(num, left, right, k);
      }
    }
    FillDetermined(f, g, OrderFields(f).value, OrderFields(g).value);
  }

  lemma SameHasSameKeys(f: seq<Field>, g: seq<Field>)
    requires Same(false, Record(f), Record(g))
    ensures SameKeys(f, g)
  {
    forall k | k != PROTO ensures Lookup(f, k).Absent? <==> Lookup(g, k).Absent? {
      assert !Lookup(f, k).Absent? ==> Counts(false, Field(k, Lookup(f, k)));
      assert !Lookup(g, k).Absent? ==> Counts(false, Field(k, Lookup(g, k)));
    }
  }

  lemma ObjectOpens(st: Style, ms: seq<Member>, depth: nat)
    ensures LooksStructured(Print(st, Obj(ms), depth))
  {
  }

  lemma NormalizedJson(js: Runtime, v: Value, j: Json)
    requires v.Record? && Order(v) == Some(j)
    ensures NormalizeObject(js, v) == Print(COMPACT, j, 0)
  {
  }

  lemma ObjectText(js: Runtime, f: seq<Field>)
    requires OrderFields(f).Some?
    ensures NormalizeObject(js, Record(f)) == Print(COMPACT, Obj(Members(f)), 0)
  {
    OrderedRecord(f);
    NormalizedJson(js, Record(f), Obj(Members(f)));
  }

  lemma ParsedCompared(js: Runtime, x: Text, y: Text, left: seq<Member>, right: seq<Member>)
    requires Parse(js.token, x) == Some(Obj(left)) && Parse(js.token, y) == Some(Obj(right))
    requires LooksStructured(x) && LooksStructured(y) && x != y
    ensures Classify(js, x, y) == ClassifyObjects(left, right)
  {
  }

  /** What the comparison of two records' texts comes to. */
  lemma RecordsCompared(js: Runtime, f: seq<Field>, g: seq<Field>)
    requires OrderFields(f).Some? && OrderFields(g).Some?
    requires Proper(js.token, Obj(Members(f))) && Proper(js.token, Obj(Members(g)))
    ensures var x, y := NormalizeObject(js, Record(f)), NormalizeObject(js, Record(g));
      x != y ==> Classify(js, x, y) == ClassifyObjects(Members(f), Members(g))
  {
    var x, y := NormalizeObject(js, Record(f)), NormalizeObject(js, Record(g));
    ObjectText(js, f);
    ObjectText(js, g);
    ObjectOpens(COMPACT, Members(f), 0);
    ObjectOpens(COMPACT, Members(g), 0);
    RoundTrip(js.token, COMPACT, Obj(Members(f)));
    RoundTrip(js.token, COMPACT, Obj(Members(g)));
    if x != y {
      ParsedCompared(js, x, y, Members(f), Members(g));
    }
  }

  lemma EqualTexts(js: Runtime, f: seq<Field>, g: seq<Field>)
    requires Real(Record(f)) && Real(Record(g)) && OrderFields(f).Some? && OrderFields(g).Some?
    ensures NormalizeObject(js, Record(f)) == NormalizeObject(js, Record(g)) <==> Same(false, Record(f), Record(g))
    ensures Members(f) == Members(g) ==> Same(false, Record(f), Record(g))
  {
    ObjectText(js, f);
    ObjectText(js, g);
    OrderedRecord(f);
    OrderedRecord(g);
    CanonicalExactness(Record(f), Record(g));
  }

  /** When "duplicates" is right about two objects: exactly when they have the same keys. Two
      different objects that are called duplicates never have the same keys, and the gate closes
      the older one as if it were a copy. */
  lemma DuplicatesExact(js: Runtime, f: seq<Field>, g: seq<Field>)
    requires Real(Record(f)) && Real(Record(g)) && OrderFields(f).Some? && OrderFields(g).Some?
    requires Proper(js.token, Obj(Members(f))) && Proper(js.token, Obj(Members(g)))
    requires Classify(js, NormalizeObject(js, Record(f)), NormalizeObject(js, Record(g))) == Some(Duplicates)
    ensures SameKeys(f, g) <==> Same(false, Record(f), Record(g))
  {
    RecordsCompared(js, f, g);
    EqualTexts(js, f, g);
    if Same(false, Record(f), Record(g)) {
      SameHasSameKeys(f, g);
    } else if SameKeys(f, g) {
      SameKeysSameObject(js.token, f, g);
    }
  }

  lemma FindTwo(m: Member, n: Member, k: Text)
    ensures Find([m, n], k) == if k == m.key then Some(m.value) else if k == n.key then Some(n.value) else None
  {
    var tail := [m, n][1..];
    assert tail == [n] && tail[1..] == [];
    assert Find(tail, k) == if k == n.key then Some(n.value) else None;
  }

  /** On objects duplication compares the number of keys, not the keys. A witness: objects that
      agree on one shared key and differ in another are called duplicates, and transitivity is
      lost. */
  lemma ObjectDuplicatesLoose(a: Text, b: Text, c: Text, one: Json, two: Json)
    requires a != b && b != c && a != c && Print(COMPACT, one, 0) != Print(COMPACT, two, 0)
    ensures ClassifyObjects([Member(a, one), Member(b, one)], [Member(a, one), Member(c, one)]) == Some(Duplicates)
    ensures ClassifyObjects([Member(a, one), Member(c, one)], [Member(c, one), Member(b, two)]) == Some(Duplicates)
    ensures ClassifyObjects([Member(a, one), Member(b, one)], [Member(c, one), Member(b, two)]) == Some(Contradicts)
  {
    var x, y, z := [Member(a, one), Member(b, one)], [Member(a, one), Member(c, one)], [Member(c, one), Member(b, two)];
    forall k ensures Find(x, k) == if k == a || k == b then Some(one) else None {
      FindTwo(Member(a, one), Member(b, one), k);
    }
    forall k ensures Find(y, k) == if k == a || k == c then Some(one) else None {
      FindTwo(Member(a, one), Member(c, one), k);
    }
    forall k ensures Find(z, k) == if k == c then Some(one) else if k == b then Some(two) else None {
      FindTwo(Member(c, one), Member(b, two), k);
    }
    assert SharedKey(x, y, a) && SharedKey(y, z, c) && SharedKey(x, z, b) && !Agrees(x, z, b);
  }
}
