/**
 The digest of a projection's rows (`projectionDigest`), and what its input determines.
 */
module ProjectionRows {
  import opened Utf16
  import opened JsonText
  import opened JsonRoundTrip
  import opened Canonical
  import opened CanonicalExact

  /** The text fed to the hash: each row's canonical text and a newline. */
  function ProjectionText(rows: seq<Value>): Option<Text> {
    if rows == [] then Some([])
    else
      match (Canonicalize(rows[0]), ProjectionText(rows[1..]))
      case (Some(t), Some(tail)) => Some(t + [NEWLINE] + tail)
      case _ => None
  }

  function After(fed: Text, tail: Option<Text>): Option<Text> {
    match tail
    case None => None
    case Some(t) => Some(fed + t)
  }

  datatype Projection = Projection(digest: Text, rows: nat)

  /** `projectionDigest`; None where a row cannot be canonicalized. */
  method ProjectionDigest(sha: Text -> Text, rows: seq<Value>) returns (r: Option<Projection>)
    ensures ProjectionText(rows).None? ==> r.None?
    ensures ProjectionText(rows).Some? ==> r == Some(Projection(sha(ProjectionText(rows).value), |rows|))
  {
    var fed: Text := [];
    assert rows[0..] == rows;
    if ProjectionText(rows).Some? {
      assert fed + ProjectionText(rows).value == ProjectionText(rows).value;
    }
    for i := 0 to |rows|
      invariant ProjectionText(rows) == After(fed, ProjectionText(rows[i..]))
    {
      var t := Canonicalize(rows[i]);
      assert rows[i..][1..] == rows[i + 1..];
      if t.None? {
        return None;
      }
      if ProjectionText(rows[i + 1..]).Some? {
        Associate(fed, t.value + [NEWLINE], ProjectionText(rows[i + 1..]).value);
        Associate(fed, t.value, [NEWLINE]);
      }
      fed := fed + t.value;
      fed := fed + [NEWLINE];
    }
    assert rows[|rows|..] == [];
    assert fed + [] == fed;
    r := Some(Projection(sha(fed), |rows|));
  }

  /** The input is made of the rows in their order: each one's canonical text and a newline. */
  lemma {:induction false} RowsInOrder(a: seq<Value>, v: Value, b: seq<Value>)
    requires ProjectionText(a + [v] + b).Some?
    ensures ProjectionText(a).Some? && Canonicalize(v).Some? && ProjectionText(b).Some?
    ensures ProjectionText(a + [v] + b).value
         == ProjectionText(a).value + Canonicalize(v).value + [0x0A] + ProjectionText(b).value
    decreases |a|
  {
    var rows := a + [v] + b;
    if a == [] {
      assert rows[0] == v && rows[1..] == b;
    } else {
      assert rows[0] == a[0] && rows[1..] == a[1..] + [v] + b;
      RowsInOrder(a[1..], v, b);
      var t := Canonicalize(a[0]).value + [NEWLINE];
      var front, text, tail := ProjectionText(a[1..]).value, Canonicalize(v).value, ProjectionText(b).value;
      assert t + (front + text + [0x0A] + tail) == t + front + text + [0x0A] + tail;
    }
  }

  /** Equal digest input, equal rows: same number of rows, pairwise canonically equal. */
  lemma {:induction false} ProjectionExact(a: seq<Value>, b: seq<Value>)
    requires (forall v :: v in a ==> Real(v)) && (forall v :: v in b ==> Real(v))
    requires ProjectionText(a).Some? && ProjectionText(b).Some?
    ensures ProjectionText(a) == ProjectionText(b) <==>
      |a| == |b| && forall i :: 0 <= i < |a| ==> Same(false, a[i], b[i])
    decreases |a|
  {
    if a != [] && b != [] {
      ProjectionExact(a[1..], b[1..]);
      CanonicalExactness(a[0], b[0]);
      var s, t := Canonicalize(a[0]).value, Canonicalize(b[0]).value;
      var x, y := ProjectionText(a[1..]).value, ProjectionText(b[1..]).value;
      if ProjectionText(a) == ProjectionText(b) {
        RowsSplit(a[0], b[0], x, y);
      }
      RowsShift(a, b);
    }
  }

  lemma RowsShift(a: seq<Value>, b: seq<Value>)
    requires a != [] && b != []
    ensures (|a| == |b| && forall i :: 0 <= i < |a| ==> Same(false, a[i], b[i])) <==>
      Same(false, a[0], b[0]) && |a[1..]| == |b[1..]| &&
      forall i :: 0 <= i < |a[1..]| ==> Same(false, a[1..][i], b[1..][i])
  {
    if |a| == |b| && Same(false, a[0], b[0]) &&
       forall i :: 0 <= i < |a[1..]| ==> Same(false, a[1..][i], b[1..][i]) {
      forall i | 0 <= i < |a| ensures Same(false, a[i], b[i]) {
        assert i > 0 ==> Same(false, a[1..][i - 1], b[1..][i - 1]);
      }
    }
  }

  /** The first row's text can be read off the front of the input. */
  lemma RowsSplit(v: Value, w: Value, x: Text, y: Text)
    requires Real(v) && Real(w) && Canonicalize(v).Some? && Canonicalize(w).Some?
    requires Canonicalize(v).value + [NEWLINE] + x == Canonicalize(w).value + [NEWLINE] + y
    ensures Canonicalize(v) == Canonicalize(w) && x == y
  {
    OrderProper(v);
    OrderProper(w);
    Associate(Canonicalize(v).value, [NEWLINE], x);
    Associate(Canonicalize(w).value, [NEWLINE], y);
    ValueRoundTrip(AsIs, COMPACT, Order(v).value, 0, [NEWLINE] + x);
    ValueRoundTrip(AsIs, COMPACT, Order(w).value, 0, [NEWLINE] + y);
    assert x == ([NEWLINE] + x)[1..] && y == ([NEWLINE] + y)[1..];
  }
}
