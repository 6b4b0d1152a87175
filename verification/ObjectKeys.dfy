/**
 The order in which an object lists its keys: array indices by number, then the rest by their
 code units.
 */
module ObjectKeys {
  import opened Utf16
  import opened JsonText
  import opened Decimals

  // ----- decimal text and the number it names

  function NatOf(t: Text): nat
    requires forall i :: 0 <= i < |t| ==> IsDigit(t[i])
  {
    if t == [] then 0
    else
      assert IsDigit(t[|t| - 1]);
      10 * NatOf(t[..|t| - 1]) + (t[|t| - 1] as int - 0x30)
  }

  ghost predicate Digits(t: Text) {
    forall i :: 0 <= i < |t| ==> IsDigit(t[i])
  }

  /** `String(n)` names n. */
  lemma {:induction false} DecimalNames(n: nat)
    ensures Digits(Decimal(n)) && NatOf(Decimal(n)) == n
    ensures Decimal(n)[0] == ZERO ==> n == 0 && |Decimal(n)| == 1
  {
    if n >= 10 {
      DecimalNames(n / 10);
      var t := Decimal(n);
      assert t[..|t| - 1] == Decimal(n / 10);
    } else {
      assert Decimal(n)[..0] == [];
    }
  }

  /** Digits without a leading zero are the text of the number they name. */
  lemma {:induction false} NamesDecimal(t: Text)
    requires t != [] && Digits(t) && (t == [ZERO] || t[0] != ZERO)
    ensures Decimal(NatOf(t)) == t && (t[0] != ZERO ==> NatOf(t) > 0)
    decreases |t|
  {
    var front, last := t[..|t| - 1], t[|t| - 1];
    assert t == front + [last];
    if front == [] {
      assert NatOf(front) == 0;
    } else {
      NamesDecimal(front);
      assert NatOf(t) / 10 == NatOf(front) && NatOf(t) % 10 == last as int - 0x30;
    }
  }

  // ----- comparing indices is comparing numbers

  lemma {:induction false} LessExtends(a: Text, b: Text, x: CodeUnit, y: CodeUnit)
    requires |a| == |b| && Less(a, b)
    ensures Less(a + [x], b + [y])
  {
    assert (a + [x])[0] == a[0] && (b + [y])[0] == b[0];
    if a[0] == b[0] {
      LessExtends(a[1..], b[1..], x, y);
      assert (a + [x])[1..] == a[1..] + [x] && (b + [y])[1..] == b[1..] + [y];
    }
  }

  lemma {:induction false} LessLast(a: Text, x: CodeUnit, y: CodeUnit)
    requires x < y
    ensures Less(a + [x], a + [y])
  {
    if a == [] {
      assert ([x] + [])[0] == x;
      assert a + [x] == [x] && a + [y] == [y];
    } else {
      LessLast(a[1..], x, y);
      assert (a + [x])[1..] == a[1..] + [x] && (a + [y])[1..] == a[1..] + [y];
    }
  }

  lemma {:induction false} DecimalLess(m: nat, n: nat)
    requires m < n
    ensures IndexLess(Decimal(m), Decimal(n))
    decreases n
  {
    if n < 10 {
    } else if m < 10 {
    } else {
      var x, y := (0x30 + m % 10) as CodeUnit, (0x30 + n % 10) as CodeUnit;
      if m / 10 < n / 10 {
        DecimalLess(m / 10, n / 10);
        if |Decimal(m / 10)| == |Decimal(n / 10)| {
          LessExtends(Decimal(m / 10), Decimal(n / 10), x, y);
        }
      } else {
        assert m / 10 == n / 10 && x < y;
        LessLast(Decimal(m / 10), x, y);
      }
    }
  }

  lemma IndexLessExact(m: nat, n: nat)
    ensures IndexLess(Decimal(m), Decimal(n)) <==> m < n
  {
    LessIrreflexive(Decimal(m));
    if m < n {
      DecimalLess(m, n);
    } else if n < m {
      DecimalLess(n, m);
      if Less(Decimal(m), Decimal(n)) && Less(Decimal(n), Decimal(m)) {
        LessTransitive(Decimal(m), Decimal(n), Decimal(m));
      }
    }
  }

  // ----- array indices

  /** The numbers that are array indices: 0 to 2^32 - 2. */
  ghost predicate Names(k: Text, n: nat) {
    n <= 4294967294 && k == Decimal(n)
  }

  lemma NextDigit(n: nat, d: nat, t: Text)
    requires 0 < n && d < 10 && Decimal(n) == t
    ensures Decimal(10 * n + d) == t + [(0x30 + d) as CodeUnit]
  {
    assert (10 * n + d) / 10 == n && (10 * n + d) % 10 == d;
  }

  lemma LastIndex()
    ensures Decimal(4294967294) == Lit("4294967294") && |Decimal(4294967294)| == 10
  {
    NextDigit(4, 2, Decimal(4));
    NextDigit(42, 9, Decimal(42));
    NextDigit(429, 4, Decimal(429));
    NextDigit(4294, 9, Decimal(4294));
    NextDigit(42949, 6, Decimal(42949));
    NextDigit(429496, 7, Decimal(429496));
    NextDigit(4294967, 2, Decimal(4294967));
    NextDigit(42949672, 9, Decimal(42949672));
    NextDigit(429496729, 4, Decimal(429496729));
    assert Decimal(4294967294) == [0x34, 0x32, 0x39, 0x34, 0x39, 0x36, 0x37, 0x32, 0x39, 0x34];
    assert Lit("4294967294") == [0x34, 0x32, 0x39, 0x34, 0x39, 0x36, 0x37, 0x32, 0x39, 0x34];
  }

  /** Which keys are array indices. */
  lemma IndexExact(k: Text)
    ensures IsIndex(k) <==> exists n :: Names(k, n)
  {
    LastIndex();
    if IsIndex(k) {
      NamesDecimal(k);
      IndexLessExact(4294967294, NatOf(k));
      if NatOf(k) > 4294967294 {
        LessEqAntisymmetric(k, Decimal(4294967294));
      }
      assert Names(k, NatOf(k));
    }
    if n :| Names(k, n) {
      DecimalNames(n);
      IndexLessExact(n, 4294967294);
    }
  }

  // ----- where one key stands before another

  /** Array indices first, by number; then the other keys, by their first different code unit. */
  ghost predicate KeyBefore(a: Text, b: Text) {
    || (exists m, n :: Names(a, m) && Names(b, n) && m < n)
    || ((exists m :: Names(a, m)) && !exists n :: Names(b, n))
    || (!(exists m :: Names(a, m)) && !(exists n :: Names(b, n)) && Precedes(a, b))
  }

  lemma BothIndices(a: Text, b: Text, m: nat, n: nat)
    requires Names(a, m) && Names(b, n)
    ensures KeyBefore(a, b) <==> m < n
  {
    if KeyBefore(a, b) {
      var m', n' :| Names(a, m') && Names(b, n') && m' < n';
      DecimalInjective(m, m');
      DecimalInjective(n, n');
    }
  }

  lemma KeyBeforeExact(a: Text, b: Text)
    ensures KeyBefore(a, b) <==>
      if IsIndex(b) then IsIndex(a) && IndexLess(a, b) else IsIndex(a) || Less(a, b)
  {
    IndexExact(a);
    IndexExact(b);
    LessExact(a, b);
    if IsIndex(a) && IsIndex(b) {
      var m :| Names(a, m);
      var n :| Names(b, n);
      BothIndices(a, b, m, n);
      IndexLessExact(m, n);
    }
  }
}
