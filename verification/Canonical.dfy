/**
 Canonical serialization: `canonicalOrder` and `canonicalize`.

 The values are JavaScript's: a record is its own enumerable properties in any order, keys
 distinct. `canonicalOrder` fills a fresh object by assignment, `out[key] = ...`, and an
 assignment to `__proto__` sets the prototype instead of a member.
 */
module Canonical {
  import opened Utf16
  import opened JsonText

  datatype Value =
    | Absent                      // undefined
    | Nothing                     // null
    | Truth(b: bool)
    | Number(text: Text)          // finite, held as its printed text
    | NotFinite                   // NaN and the infinities
    | String(s: Text)
    | Big(digits: Text)           // bigint
    | Instant(iso: Text)          // Date
    | InvalidDate                 // Date whose time is NaN
    | Sequence(items: seq<Value>)
    | Record(fields: seq<Field>)
    | Callable                    // function or symbol

  datatype Field = Field(key: Text, value: Value)

  const PROTO: Text := Lit("__proto__")

  const COMPACT := Style(false, false)

  function Keys(fields: seq<Field>): (keys: seq<Text>)
    ensures |keys| == |fields| && forall i :: 0 <= i < |fields| ==> keys[i] == fields[i].key
  {
    seq(|fields|, i requires 0 <= i < |fields| => fields[i].key)
  }

  ghost predicate Distinct(fields: seq<Field>) {
    forall i, j :: 0 <= i < j < |fields| ==> fields[i].key != fields[j].key
  }

  /** What a JavaScript value satisfies: keys distinct, numbers printed as numbers. */
  ghost predicate Real(v: Value) {
    match v
    case Number(t) => IsNumber(t)
    case Sequence(items) => forall x | x in items :: Real(x)
    case Record(fields) => Distinct(fields) && forall f | f in fields :: Real(f.value)
    case _ => true
  }

  /** `source[key]` */
  function Lookup(fields: seq<Field>, key: Text): (v: Value)
    ensures !v.Absent? ==> Field(key, v) in fields
  {
    if fields == [] then Absent
    else if fields[0].key == key then fields[0].value
    else Lookup(fields[1..], key)
  }

  /** `out[key] = value` on a plain object. */
  function Assign(out: seq<Member>, key: Text, value: Json): seq<Member> {
    if key == PROTO then out else Put(out, key, value)
  }

  // ----- canonicalOrder; None is a thrown error

  function Order(v: Value): Option<Json>
    decreases v
  {
    match v
    case Absent => Some(Null)
    case Nothing => Some(Null)
    case Truth(b) => Some(Bool(b))
    case Number(t) => Some(Num(t))
    case NotFinite => None
    case String(s) => Some(Str(s))
    case Big(d) => Some(Str(d))
    case Instant(iso) => Some(Str(iso))
    case InvalidDate => None
    case Sequence(items) => (match OrderItems(items) case None => None case Some(js) => Some(Arr(js)))
    case Record(fields) =>
      (match OrderFields(fields) case None => None case Some(ms) => Some(Obj(Fill(ms, Sort(Keys(fields))))))
    case Callable => None
  }

  function OrderItems(items: seq<Value>): (r: Option<seq<Json>>)
    decreases items
  {
    if items == [] then Some([])
    else
      match (Order(items[0]), OrderItems(items[1..]))
      case (Some(j), Some(js)) => Some([j] + js)
      case _ => None
  }

  /** The members to be written, undefined ones dropped, in source order. */
  function OrderFields(fields: seq<Field>): Option<seq<Member>>
    decreases fields
  {
    if fields == [] then Some([])
    else if fields[0].value.Absent? then OrderFields(fields[1..])
    else
      match (Order(fields[0].value), OrderFields(fields[1..]))
      case (Some(j), Some(ms)) => Some([Member(fields[0].key, j)] + ms)
      case _ => None
  }

  /** The object after the loop has passed `keys`. */
  function Fill(ms: seq<Member>, keys: seq<Text>): seq<Member> {
    if keys == [] then []
    else
      var out, key := Fill(ms, keys[..|keys| - 1]), keys[|keys| - 1];
      match Find(ms, key)
      case None => out
      case Some(v) => Assign(out, key, v)
  }

  function Canonicalize(v: Value): Option<Text> {
    match Order(v)
    case None => None
    case Some(j) => Some(Print(COMPACT, j, 0))
  }

  /** `canonicalOrder` as the source runs it. */
  method CanonicalOrder(value: Value) returns (r: Option<Json>)
    requires Real(value)
    ensures r == Order(value)
    decreases value
  {
    match value {
      case Sequence(items) =>
        var js: seq<Json> := [];
        OrderItemsAt(items);
        for i := 0 to |items|
          invariant |js| == i
          invariant forall k :: 0 <= k < i ==> Order(items[k]) == Some(js[k])
        {
          var j := CanonicalOrder(items[i]);
          if j.None? {
            return None;
          }
          js := js + [j.value];
        }
        ItemsDetermined(items, js);
        return Some(Arr(js));
      case Record(fields) =>
        var out: seq<Member> := [];
        var keys := Sort(Keys(fields));
        ghost var ms := OrderFields(fields);
        for i := 0 to |keys|
          invariant ms.Some? ==> out == Fill(ms.value, keys[..i])
          invariant forall k :: 0 <= k < i ==> Order(Lookup(fields, keys[k])).Some?
        {
          assert keys[..i + 1][..i] == keys[..i];
          var key := keys[i];
          var item := Lookup(fields, key);
          if ms.Some? {
            FindOrdered(fields, key);
          }
          if item.Absent? {
            continue;
          }
          var j := CanonicalOrder(item);
          if j.None? {
            OrderFieldsAt(fields);
            return None;
          }
          out := Assign(out, key, j.value);
        }
        assert keys[..|keys|] == keys;
        AllKeysVisited(fields, keys);
        return Some(Obj(out));
      case _ =>
        return Order(value);
    }
  }

  lemma {:induction false} OrderItemsAt(items: seq<Value>)
    ensures OrderItems(items).Some? <==> forall k :: 0 <= k < |items| ==> Order(items[k]).Some?
    ensures OrderItems(items).Some? ==>
      |OrderItems(items).value| == |items| &&
      forall k :: 0 <= k < |items| ==> Order(items[k]) == Some(OrderItems(items).value[k])
  {
    if items != [] {
      OrderItemsAt(items[1..]);
      assert forall k :: 1 <= k < |items| ==> items[k] == items[1..][k - 1];
    }
  }

  lemma ItemsDetermined(items: seq<Value>, js: seq<Json>)
    requires |js| == |items| && forall k :: 0 <= k < |items| ==> Order(items[k]) == Some(js[k])
    ensures OrderItems(items) == Some(js)
  {
    OrderItemsAt(items);
    assert OrderItems(items).value == js;
  }

  /** Nothing visible throws exactly when the whole record does not. */
  lemma {:induction false} OrderFieldsAt(fields: seq<Field>)
    ensures OrderFields(fields).Some? <==> forall f :: f in fields ==> Order(f.value).Some?
  {
    if fields != [] {
      OrderFieldsAt(fields[1..]);
      assert fields == [fields[0]] + fields[1..];
    }
  }

  lemma {:induction false} LookupField(fields: seq<Field>, f: Field)
    requires Distinct(fields) && f in fields
    ensures Lookup(fields, f.key) == f.value
  {
    if fields[0] != f {
      assert f in fields[1..];
      LookupField(fields[1..], f);
    }
  }

  lemma {:induction false} FindOrdered(fields: seq<Field>, key: Text)
    requires Distinct(fields) && OrderFields(fields).Some?
    ensures Find(OrderFields(fields).value, key)
         == if Lookup(fields, key).Absent? then None else Order(Lookup(fields, key))
  {
    if fields != [] {
      FindOrdered(fields[1..], key);
    }
  }

  lemma AllKeysVisited(fields: seq<Field>, keys: seq<Text>)
    requires Distinct(fields) && keys == Sort(Keys(fields))
    requires forall k :: 0 <= k < |keys| ==> Order(Lookup(fields, keys[k])).Some?
    ensures OrderFields(fields).Some?
  {
    forall f | f in fields ensures Order(f.value).Some? {
      LookupField(fields, f);
      var i :| 0 <= i < |fields| && fields[i] == f;
      assert Keys(fields)[i] in Keys(fields);
      SameElements(Keys(fields), keys, f.key);
    }
    OrderFieldsAt(fields);
  }
}
