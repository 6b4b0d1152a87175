/**
 Scope comparison: the gate's `scopeContainment` and the ledger's `scopeContainedBy`,
 measured against the set of concrete points a scope covers.
 */
module Scope {
  import opened Utf16
  import opened JsonText

  /** Four dimensions, null where the scope does not bind one, and the purposes. */
  datatype ScopeRow = ScopeRow(tenant: Text, project: Option<Text>, user: Option<Text>,
                               agent: Option<Text>, session: Option<Text>, purpose: seq<Text>)

  /** One concrete situation. */
  datatype Point = Point(dims: seq<Text>, purpose: Text)

  datatype Containment = Containment(contained: bool, narrower: bool, broadenedPurposes: seq<Text>)

  function Dims(s: ScopeRow): (d: seq<Option<Text>>)
    ensures |d| == 4
  {
    [s.project, s.user, s.agent, s.session]
  }

  predicate DimContained(want: Option<Text>, have: Option<Text>) {
    have.None? || want == have
  }

  predicate DimsContained(requested: ScopeRow, authority: ScopeRow) {
    forall d :: 0 <= d < 4 ==> DimContained(Dims(requested)[d], Dims(authority)[d])
  }

  predicate PurposesContained(requested: ScopeRow, authority: ScopeRow) {
    forall p :: p in requested.purpose ==> p in authority.purpose
  }

  predicate Contained(requested: ScopeRow, authority: ScopeRow) {
    DimsContained(requested, authority) && PurposesContained(requested, authority)
  }

  predicate NarrowerDims(requested: ScopeRow, authority: ScopeRow) {
    exists d :: 0 <= d < 4 && Dims(requested)[d].Some? && Dims(authority)[d].None?
  }

  predicate Narrower(requested: ScopeRow, authority: ScopeRow) {
    NarrowerDims(requested, authority) || !PurposesContained(authority, requested)
  }

  /** `a.filter((x) => !b.includes(x))` */
  function Missing(a: seq<Text>, b: seq<Text>): (r: seq<Text>)
    ensures forall x :: x in r <==> x in a && x !in b
  {
    if a == [] then []
    else if a[0] in b then Missing(a[1..], b)
    else [a[0]] + Missing(a[1..], b)
  }

  /** The purposes that are missing come out in the order in which they were asked for. */
  lemma {:induction false} MissingInOrder(before: seq<Text>, after: seq<Text>, b: seq<Text>)
    ensures Missing(before + after, b) == Missing(before, b) + Missing(after, b)
    ensures forall x :: Missing([x], b) == if x in b then [] else [x]
  {
    if before == [] {
      assert before + after == after;
    } else {
      assert (before + after)[0] == before[0] && (before + after)[1..] == before[1..] + after;
      MissingInOrder(before[1..], after, b);
    }
  }

  method ScopeContainment(requested: ScopeRow, authority: ScopeRow) returns (r: Containment)
    ensures r.contained <==> Contained(requested, authority)
    ensures r.narrower <==> Narrower(requested, authority)
    ensures r.broadenedPurposes == Missing(requested.purpose, authority.purpose)
  {
    var contained, narrower := true, false;
    for d := 0 to 4
      invariant contained <==> forall k :: 0 <= k < d ==> DimContained(Dims(requested)[k], Dims(authority)[k])
      invariant narrower <==> exists k :: 0 <= k < d && Dims(requested)[k].Some? && Dims(authority)[k].None?
    {
      var want, have := Dims(requested)[d], Dims(authority)[d];
      if want.None? && have.Some? {
        contained := false;
      } else if want.Some? && have.None? {
        narrower := true;
      } else if want.Some? && have.Some? && want != have {
        contained := false;
      }
    }
    var broadened := Missing(requested.purpose, authority.purpose);
    if |broadened| > 0 {
      assert broadened[0] in broadened;
      contained := false;
    } else {
      assert forall p :: p in requested.purpose && p !in authority.purpose ==> p in broadened;
    }
    if exists p :: p in authority.purpose && p !in requested.purpose {
      narrower := true;
    }
    r := Containment(contained, narrower, broadened);
  }

  // ----- what it means

  ghost predicate Covers(s: ScopeRow, p: Point) {
    && |p.dims| == 4
    && (forall d :: 0 <= d < 4 ==> Dims(s)[d].None? || Dims(s)[d].value == p.dims[d])
    && p.purpose in s.purpose
  }

  ghost predicate Includes(outer: ScopeRow, inner: ScopeRow) {
    forall p :: Covers(inner, p) ==> Covers(outer, p)
  }

  /** A value other than the one given. */
  function Other(t: Option<Text>): (r: Text)
    ensures t != Some(r)
  {
    match t case None => [] case Some(s) => s + [0]
  }

  /** A point of s that avoids `away` wherever s leaves it the choice. */
  function PointOf(s: ScopeRow, away: ScopeRow, purpose: Text): (p: Point)
    ensures purpose in s.purpose ==> Covers(s, p)
    ensures p.purpose == purpose && |p.dims| == 4
    ensures forall d :: 0 <= d < 4 && Dims(s)[d].None? ==> Dims(away)[d] != Some(p.dims[d])
  {
    Point(seq(4, d requires 0 <= d < 4 => if Dims(s)[d].Some? then Dims(s)[d].value else Other(Dims(away)[d])), purpose)
  }

  lemma ContainedIncludes(requested: ScopeRow, authority: ScopeRow)
    requires Contained(requested, authority)
    ensures Includes(authority, requested)
  {
    forall p | Covers(requested, p) ensures Covers(authority, p) {
      forall d | 0 <= d < 4 ensures Dims(authority)[d].None? || Dims(authority)[d].value == p.dims[d] {
        assert DimContained(Dims(requested)[d], Dims(authority)[d]);
      }
    }
  }

  lemma IncludesContained(requested: ScopeRow, authority: ScopeRow)
    requires Includes(authority, requested) && requested.purpose != []
    ensures Contained(requested, authority)
  {
    var p := PointOf(requested, authority, requested.purpose[0]);
    assert Covers(authority, p);
    forall d | 0 <= d < 4 ensures DimContained(Dims(requested)[d], Dims(authority)[d]) {
      assert Dims(authority)[d].None? || Dims(authority)[d].value == p.dims[d];
    }
    forall x | x in requested.purpose ensures x in authority.purpose {
      assert Covers(authority, PointOf(requested, authority, x));
    }
  }

  /** Contained means included, exactly when the request names a purpose or its dimensions fit:
      a request without purposes covers nothing, yet is refused if its dimensions do not fit. */
  lemma ContainmentIsInclusion(requested: ScopeRow, authority: ScopeRow)
    ensures (Contained(requested, authority) <==> Includes(authority, requested)) <==>
      requested.purpose != [] || DimsContained(requested, authority)
  {
    if Contained(requested, authority) {
      ContainedIncludes(requested, authority);
    }
    if requested.purpose != [] && Includes(authority, requested) {
      IncludesContained(requested, authority);
    }
  }

  lemma StrictWithPurpose(requested: ScopeRow, authority: ScopeRow)
    requires requested.purpose != []
    ensures Contained(requested, authority) && Narrower(requested, authority) <==>
      Includes(authority, requested) && !Includes(requested, authority)
  {
    ContainmentIsInclusion(requested, authority);
    if Contained(requested, authority) {
      var x := requested.purpose[0];
      assert x in authority.purpose;
      if NarrowerDims(requested, authority) {
        var d :| 0 <= d < 4 && Dims(requested)[d].Some? && Dims(authority)[d].None?;
        var p := PointOf(authority, requested, x);
        assert Covers(authority, p) && !Covers(requested, p);
      } else if y :| y in authority.purpose && y !in requested.purpose {
        var p := PointOf(authority, requested, y);
        assert Covers(authority, p) && !Covers(requested, p);
      } else {
        assert Contained(authority, requested) by {
          forall d | 0 <= d < 4 ensures DimContained(Dims(authority)[d], Dims(requested)[d]) {
            assert DimContained(Dims(requested)[d], Dims(authority)[d]);
          }
        }
        ContainedIncludes(authority, requested);
      }
    }
  }

  /** A request without purposes covers nothing. */
  lemma StrictWithoutPurpose(requested: ScopeRow, authority: ScopeRow)
    requires requested.purpose == []
    ensures Includes(authority, requested) && !Includes(requested, authority) <==> authority.purpose != []
  {
    if authority.purpose != [] {
      var p := PointOf(authority, requested, authority.purpose[0]);
      assert Covers(authority, p) && !Covers(requested, p);
    }
  }

  /** Contained and narrower means strictly included, exactly when the request names a purpose,
      or its dimensions fit an authority with purposes, or it is not narrower than one without. */
  lemma NarrowerIsStrict(requested: ScopeRow, authority: ScopeRow)
    ensures (Contained(requested, authority) && Narrower(requested, authority) <==>
             Includes(authority, requested) && !Includes(requested, authority)) <==>
      || requested.purpose != []
      || (if authority.purpose != [] then DimsContained(requested, authority)
          else !(DimsContained(requested, authority) && NarrowerDims(requested, authority)))
  {
    if requested.purpose != [] {
      StrictWithPurpose(requested, authority);
    } else {
      StrictWithoutPurpose(requested, authority);
      assert !PurposesContained(authority, requested) <==> authority.purpose != [] by {
        if authority.purpose != [] {
          assert authority.purpose[0] in authority.purpose;
        }
      }
    }
  }

  lemma ContainedTransitive(a: ScopeRow, b: ScopeRow, c: ScopeRow)
    requires Contained(a, b) && Contained(b, c)
    ensures Contained(a, c)
  {
    forall d | 0 <= d < 4 ensures DimContained(Dims(a)[d], Dims(c)[d]) {
      assert DimContained(Dims(a)[d], Dims(b)[d]) && DimContained(Dims(b)[d], Dims(c)[d]);
    }
  }

  // ----- the ledger's comparison

  method ScopeContainedBy(candidate: ScopeRow, authority: ScopeRow) returns (fits: bool)
    ensures fits <==> DimsContained(authority, candidate)
  {
    for d := 0 to 4
      invariant forall k :: 0 <= k < d ==> DimContained(Dims(authority)[k], Dims(candidate)[k])
    {
      var c, a := Dims(candidate)[d], Dims(authority)[d];
      if c.None? {
        continue;
      }
      if a.Some? && a != c {
        return false;
      }
      if a.None? {
        return false;
      }
    }
    return true;
  }

  /** The ledger's test, whose comment asks whether the candidate fits inside the authority,
      answers the opposite question: given the same purposes, it holds exactly when every
      point of the authority is a point of the candidate. */
  lemma LedgerComparisonIsReversed(candidate: ScopeRow, authority: ScopeRow)
    requires candidate.purpose == authority.purpose != []
    ensures DimsContained(authority, candidate) <==> Includes(candidate, authority)
  {
    ContainmentIsInclusion(authority, candidate);
  }
}
