/**
 JavaScript strings: sequences of 16-bit code units, with the order that
 Array.prototype.sort uses on strings and a model of that sort.
 */
module Utf16 {

  newtype CodeUnit = n: int | 0 <= n < 0x1_0000

  type Text = seq<CodeUnit>

  /** A literal of the source, as code units. */
  function Lit(s: string): (t: Text)
    ensures |t| == |s|
    ensures forall i :: 0 <= i < |s| && s[i] as int < 0x1_0000 ==> t[i] as int == s[i] as int
  {
    seq(|s|, i requires 0 <= i < |s| => if s[i] as int < 0x1_0000 then s[i] as int as CodeUnit else 0xFFFD)
  }

  /** `parts.join(sep)` */
  function Join(parts: seq<Text>, sep: CodeUnit): Text {
    if parts == [] then []
    else if |parts| == 1 then parts[0]
    else parts[0] + [sep] + Join(parts[1..], sep)
  }

  predicate IsLead(c: CodeUnit) { 0xD800 <= c < 0xDC00 }

  predicate IsTrail(c: CodeUnit) { 0xDC00 <= c < 0xE000 }

  /** Surrogates come in pairs only. On such text UTF-8 encoding loses nothing. */
  predicate WellFormed(t: Text) {
    if t == [] then true
    else if IsLead(t[0]) then |t| > 1 && IsTrail(t[1]) && WellFormed(t[2..])
    else !IsTrail(t[0]) && WellFormed(t[1..])
  }

  /** What UTF-8 encoding keeps of a text: it writes U+FFFD for each lone surrogate. */
  function Repaired(t: Text): (r: Text)
    ensures WellFormed(r) && (r == [] <==> t == [])
  {
    if t == [] then []
    else if IsLead(t[0]) && |t| > 1 && IsTrail(t[1]) then
      var rest := Repaired(t[2..]);
      assert ([t[0], t[1]] + rest)[2..] == rest;
      [t[0], t[1]] + rest
    else
      var rest := Repaired(t[1..]);
      assert ([0xFFFD] + rest)[1..] == rest && ([t[0]] + rest)[1..] == rest;
      [if IsLead(t[0]) || IsTrail(t[0]) then 0xFFFD else t[0]] + rest
  }

  /** A surrogate without its partner next to it. */
  predicate Lone(t: Text, i: nat)
    requires i < |t|
  {
    || (0xD800 <= t[i] < 0xDC00 && !(i + 1 < |t| && 0xDC00 <= t[i + 1] < 0xE000))
    || (0xDC00 <= t[i] < 0xE000 && !(i > 0 && 0xD800 <= t[i - 1] < 0xDC00))
  }

  /** Exactly the lone surrogates are replaced, each by one U+FFFD. */
  lemma {:induction false} RepairedAt(t: Text)
    ensures |Repaired(t)| == |t|
    ensures forall i :: 0 <= i < |t| ==> Repaired(t)[i] == if Lone(t, i) then 0xFFFD else t[i]
  {
    if t == [] {
    } else if IsLead(t[0]) && |t| > 1 && IsTrail(t[1]) {
      RepairedAt(t[2..]);
      forall i | 2 <= i < |t| ensures Repaired(t)[i] == if Lone(t, i) then 0xFFFD else t[i] {
        assert Repaired(t)[i] == Repaired(t[2..])[i - 2];
        assert Lone(t, i) <==> Lone(t[2..], i - 2);
      }
    } else {
      RepairedAt(t[1..]);
      forall i | 1 <= i < |t| ensures Repaired(t)[i] == if Lone(t, i) then 0xFFFD else t[i] {
        assert Repaired(t)[i] == Repaired(t[1..])[i - 1];
        assert Lone(t, i) <==> Lone(t[1..], i - 1);
      }
    }
  }

  lemma {:induction false} RepairedIff(t: Text)
    ensures Repaired(t) == t <==> WellFormed(t)
  {
    if t != [] {
      if IsLead(t[0]) && |t| > 1 && IsTrail(t[1]) {
        RepairedIff(t[2..]);
        assert t == [t[0], t[1]] + t[2..];
      } else {
        RepairedIff(t[1..]);
        assert t == [t[0]] + t[1..];
      }
    }
  }

  lemma {:induction false} WellFormedAppend(a: Text, b: Text)
    requires WellFormed(a) && WellFormed(b)
    ensures WellFormed(a + b)
  {
    if a == [] {
      assert a + b == b;
    } else if IsLead(a[0]) {
      assert (a + b)[2..] == a[2..] + b;
      WellFormedAppend(a[2..], b);
    } else {
      assert (a + b)[1..] == a[1..] + b;
      WellFormedAppend(a[1..], b);
    }
  }

  predicate NoSurrogates(t: Text) {
    forall i :: 0 <= i < |t| ==> !IsLead(t[i]) && !IsTrail(t[i])
  }

  lemma {:induction false} PlainWellFormed(t: Text)
    requires NoSurrogates(t)
    ensures WellFormed(t)
  {
    if t != [] {
      PlainWellFormed(t[1..]);
    }
  }

  /** String comparison by code units, as `<` and the default sort use it. */
  predicate Less(a: Text, b: Text) {
    if b == [] then false
    else if a == [] then true
    else if a[0] != b[0] then a[0] < b[0]
    else Less(a[1..], b[1..])
  }

  /** One string is before another if at the first place where they differ it has the smaller
      code unit, or nothing. */
  ghost predicate Precedes(a: Text, b: Text) {
    exists k :: 0 <= k <= |a| && k < |b| && a[..k] == b[..k] && (k == |a| || a[k] < b[k])
  }

  lemma PrecedesAt(a: Text, b: Text, k: nat)
    requires k <= |a| && k < |b| && a[..k] == b[..k] && (k == |a| || a[k] < b[k])
    ensures Precedes(a, b)
  {
  }

  lemma {:induction false} LessPrecedes(a: Text, b: Text)
    requires Less(a, b)
    ensures Precedes(a, b)
  {
    if a == [] || a[0] != b[0] {
      PrecedesAt(a, b, 0);
    } else {
      LessPrecedes(a[1..], b[1..]);
      var k :| 0 <= k <= |a| - 1 && k < |b| - 1 && a[1..][..k] == b[1..][..k] &&
        (k == |a| - 1 || a[1..][k] < b[1..][k]);
      assert a[..k + 1] == [a[0]] + a[1..][..k] && b[..k + 1] == [b[0]] + b[1..][..k];
      PrecedesAt(a, b, k + 1);
    }
  }

  lemma {:induction false} PrecedesLess(a: Text, b: Text, k: nat)
    requires k <= |a| && k < |b| && a[..k] == b[..k] && (k == |a| || a[k] < b[k])
    ensures Less(a, b)
    decreases k
  {
    if k > 0 {
      assert a[0] == a[..k][0] == b[..k][0] == b[0];
      assert a[1..][..k - 1] == a[..k][1..] == b[..k][1..] == b[1..][..k - 1];
      PrecedesLess(a[1..], b[1..], k - 1);
    }
  }

  /** What the order on strings is. */
  lemma LessExact(a: Text, b: Text)
    ensures Less(a, b) <==> Precedes(a, b)
  {
    if Less(a, b) {
      LessPrecedes(a, b);
    }
    if Precedes(a, b) {
      var k :| 0 <= k <= |a| && k < |b| && a[..k] == b[..k] && (k == |a| || a[k] < b[k]);
      PrecedesLess(a, b, k);
    }
  }

  predicate LessEq(a: Text, b: Text) {
    a == b || Less(a, b)
  }

  lemma {:induction false} LessIrreflexive(a: Text)
    ensures !Less(a, a)
  {
    if a != [] {
      LessIrreflexive(a[1..]);
    }
  }

  lemma {:induction false} LessTotal(a: Text, b: Text)
    ensures a == b || Less(a, b) || Less(b, a)
  {
    if a != [] && b != [] && a[0] == b[0] {
      LessTotal(a[1..], b[1..]);
      assert a == [a[0]] + a[1..] && b == [b[0]] + b[1..];
    }
  }

  lemma {:induction false} LessTransitive(a: Text, b: Text, c: Text)
    requires Less(a, b) && Less(b, c)
    ensures Less(a, c)
  {
    if a != [] && a[0] == b[0] == c[0] {
      LessTransitive(a[1..], b[1..], c[1..]);
    }
  }

  ghost predicate Sorted(s: seq<Text>) {
    forall i, j :: 0 <= i < j < |s| ==> LessEq(s[i], s[j])
  }

  function Insert(x: Text, s: seq<Text>): (r: seq<Text>)
    ensures multiset(r) == multiset(s) + multiset{x}
    ensures |r| == |s| + 1
  {
    if s == [] then [x]
    else if LessEq(x, s[0]) then
      [x] + s
    else
      assert s == [s[0]] + s[1..];
      [s[0]] + Insert(x, s[1..])
  }

  /** The default sort of an array of strings. */
  function Sort(s: seq<Text>): (r: seq<Text>)
    ensures multiset(r) == multiset(s)
    ensures |r| == |s|
  {
    if s == [] then []
    else
      assert s == [s[0]] + s[1..];
      Insert(s[0], Sort(s[1..]))
  }

  lemma {:induction false} InsertSorted(x: Text, s: seq<Text>)
    requires Sorted(s)
    ensures Sorted(Insert(x, s))
  {
    if s == [] {
    } else if LessEq(x, s[0]) {
      forall j | 0 <= j < |s| ensures LessEq(x, s[j]) {
        LessEqTransitive(x, s[0], s[j]);
      }
    } else {
      InsertSorted(x, s[1..]);
      LessTotal(x, s[0]);
      var r := Insert(x, s[1..]);
      forall j | 0 <= j < |r| ensures LessEq(s[0], r[j]) {
        assert r[j] in multiset(r);
        assert r[j] == x || r[j] in s[1..];
      }
    }
  }

  lemma LessEqTransitive(a: Text, b: Text, c: Text)
    requires LessEq(a, b) && LessEq(b, c)
    ensures LessEq(a, c)
  {
    if a != b && b != c {
      LessTransitive(a, b, c);
    }
  }

  lemma {:induction false} SortSorts(s: seq<Text>)
    ensures Sorted(Sort(s))
  {
    if s != [] {
      SortSorts(s[1..]);
      InsertSorted(s[0], Sort(s[1..]));
    }
  }

  lemma SameElements(a: seq<Text>, b: seq<Text>, x: Text)
    requires multiset(a) == multiset(b)
    ensures x in a <==> x in b
  {
    assert x in a <==> x in multiset(a);
    assert x in b <==> x in multiset(b);
  }

  lemma SortedHead(s: seq<Text>, x: Text)
    requires Sorted(s) && x in s
    ensures LessEq(s[0], x)
  {
    var i :| 0 <= i < |s| && s[i] == x;
    assert i == 0 || LessEq(s[0], s[i]);
  }

  lemma LessEqAntisymmetric(a: Text, b: Text)
    requires LessEq(a, b) && LessEq(b, a)
    ensures a == b
  {
    if a != b {
      LessTransitive(a, b, a);
      LessIrreflexive(a);
    }
  }

  lemma TailMultiset(s: seq<Text>)
    requires s != []
    ensures multiset(s[1..]) == multiset(s) - multiset{s[0]}
  {
    assert s == [s[0]] + s[1..];
  }

  /** A multiset of strings has one sorted arrangement, so any correct sort agrees with `Sort`. */
  lemma {:induction false} SortedUnique(a: seq<Text>, b: seq<Text>)
    requires Sorted(a) && Sorted(b) && multiset(a) == multiset(b)
    ensures a == b
  {
    assert |a| == |multiset(a)| == |multiset(b)| == |b|;
    if a != [] {
      assert b[0] in a by { SameElements(a, b, b[0]); }
      assert a[0] in b by { SameElements(a, b, a[0]); }
      SortedHead(a, b[0]);
      SortedHead(b, a[0]);
      LessEqAntisymmetric(a[0], b[0]);
      TailMultiset(a);
      TailMultiset(b);
      SortedUnique(a[1..], b[1..]);
      assert a == [a[0]] + a[1..] && b == [b[0]] + b[1..];
    }
  }

  /** Sorting what is sorted changes nothing. */
  lemma SortIdempotent(s: seq<Text>)
    ensures Sort(Sort(s)) == Sort(s)
  {
    SortSorts(s);
    SortSorts(Sort(s));
    SortedUnique(Sort(Sort(s)), Sort(s));
  }
}
