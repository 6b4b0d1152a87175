/**
 The two directions of the namespace codec undo each other, exactly when; and a store key
 decodes to the pair it was made from.
 */
module NamespaceLaws {
  import opened Utf16
  import opened JsonText
  import opened Namespace

  // ----- one segment

  lemma DimNameInjective(d: Dimension, e: Dimension)
    requires DimName(d) == DimName(e)
    ensures d == e
  {
    assert |DimName(d)| == |DimName(e)| && DimName(d)[0] == DimName(e)[0] && DimName(d)[1] == DimName(e)[1];
  }

  lemma DimLetters(d: Dimension)
    ensures DimName(d) != [] && forall i :: 0 <= i < |DimName(d)| ==> 0x61 <= DimName(d)[i] <= 0x7A
  {
  }

  lemma DimNameFound(d: Dimension)
    ensures DimensionOf(DimName(d)) == Some(d)
  {
    assert d in SCOPE_DIMENSIONS;
    DimNameInjective(d, FindDimension(DimName(d), SCOPE_DIMENSIONS).value);
  }

  lemma DimNames(d: Dimension)
    ensures DimName(d) != [] && !IsBlank(DimName(d)[0])
    ensures SEPARATOR !in DimName(d) && BAR !in DimName(d)
  {
    DimLetters(d);
  }

  predicate EndsBlank(v: Text) {
    v != [] && IsBlank(v[|v| - 1])
  }

  lemma FirstAt(head: Text, sep: CodeUnit, tail: Text)
    requires sep !in head
    ensures IndexOf(head + [sep] + tail, sep) == |head|
  {
    var s := head + [sep] + tail;
    assert s[|head|] == sep && s[..|head|] == head;
    assert forall i :: 0 <= i < |head| ==> s[i] == head[i] && head[i] in head;
    assert forall i :: |head| < i <= |s| ==> s[..i][|head|] == sep;
  }

  /** A written segment is read as its dimension and value, unless the value ends in white
      space: the writer's check lets that pass, the reader's does not. */
  lemma SegmentDecodes(e: Entry)
    requires CheckValue(e.value).None?
    ensures DecodeSegment(Segment(e)) == if EndsBlank(e.value) then Refused(EmptyValue) else Fine(Named(e))
  {
    var name, s := DimName(e.dim), Segment(e);
    DimNames(e.dim);
    DimNameFound(e.dim);
    FirstAt(name, SEPARATOR, e.value);
    assert s[0] == name[0] && s[|s| - 1] == e.value[|e.value| - 1];
    assert s[..|name|] == name && s[|name| + 1..] == e.value;
  }

  ghost predicate NoneEndsBlank(es: seq<Entry>) {
    forall e :: e in es ==> !EndsBlank(e.value)
  }

  function Wrapped(es: seq<Entry>): (ds: seq<Decoded>)
    ensures |ds| == |es| && forall i :: 0 <= i < |es| ==> ds[i] == Named(es[i])
  {
    seq(|es|, i requires 0 <= i < |es| => Named(es[i]))
  }

  lemma DecodeLast(ns: seq<Text>, segment: Text)
    ensures DecodeAll(ns + [segment]) ==
      if DecodeAll(ns).Refused? then DecodeAll(ns)
      else if DecodeSegment(segment).Refused? then Refused(DecodeSegment(segment).code)
      else Fine(DecodeAll(ns).value + [DecodeSegment(segment).value])
  {
    assert (ns + [segment])[..|ns|] == ns;
  }

  lemma SegmentsLast(front: seq<Entry>, last: Entry)
    ensures Segments(front + [last]) == Segments(front) + [Segment(last)]
    ensures Wrapped(front + [last]) == Wrapped(front) + [Named(last)]
    ensures NoneEndsBlank(front + [last]) <==> NoneEndsBlank(front) && !EndsBlank(last.value)
  {
    assert last in front + [last];
  }

  lemma {:induction false} SegmentsDecode(es: seq<Entry>)
    requires CheckEntries(es).None?
    ensures DecodeAll(Segments(es)) == if NoneEndsBlank(es) then Fine(Wrapped(es)) else Refused(EmptyValue)
    decreases |es|
  {
    if es != [] {
      var front, last := es[..|es| - 1], es[|es| - 1];
      assert es == front + [last];
      SegmentsDecode(front);
      SegmentDecodes(last);
      SegmentsLast(front, last);
      DecodeLast(Segments(front), Segment(last));
    }
  }

  // ----- collecting entries

  function ValuesOf(es: seq<Entry>, d: Dimension): seq<Text> {
    if es == [] then []
    else ValuesOf(es[..|es| - 1], d) + if es[|es| - 1].dim == d then [es[|es| - 1].value] else []
  }

  ghost predicate NoRepeats(es: seq<Entry>) {
    forall d :: d != Purpose ==> |ValuesOf(es, d)| <= 1
  }

  lemma {:induction false} CollectExact(es: seq<Entry>)
    ensures Collect(es).Fine? <==> CheckEntries(es).None? && NoRepeats(es)
    ensures Collect(es).Fine? ==> forall d :: Get(Collect(es).value, d) == ValuesOf(es, d)
    decreases |es|
  {
    if es != [] {
      var front, last := es[..|es| - 1], es[|es| - 1];
      CollectExact(front);
      assert NoRepeats(es) ==> NoRepeats(front) by {
        forall d ensures |ValuesOf(front, d)| <= |ValuesOf(es, d)| {
        }
      }
      assert |ValuesOf(es, last.dim)| == |ValuesOf(front, last.dim)| + 1;
      forall d | d != last.dim ensures ValuesOf(es, d) == ValuesOf(front, d) {
        assert ValuesOf(front, d) + [] == ValuesOf(front, d);
      }
    }
  }

  lemma {:induction false} ValuesAppend(a: seq<Entry>, b: seq<Entry>, d: Dimension)
    ensures ValuesOf(a + b, d) == ValuesOf(a, d) + ValuesOf(b, d)
    decreases |b|
  {
    if b == [] {
      assert a + b == a;
    } else {
      assert (a + b)[..|a + b| - 1] == a + b[..|b| - 1];
      ValuesAppend(a, b[..|b| - 1], d);
    }
  }

  lemma ValuesLast(es: seq<Entry>, e: Entry, d: Dimension)
    ensures ValuesOf(es + [e], d) == ValuesOf(es, d) + if e.dim == d then [e.value] else []
  {
    assert (es + [e])[..|es|] == es;
  }

  lemma MemberLast(front: seq<Dimension>, last: Dimension, d: Dimension)
    ensures d in front + [last] <==> d in front || d == last
  {
  }

  lemma BoundLast(s: StoreScope, front: seq<Dimension>, last: Dimension, d: Dimension)
    ensures ValuesOf(BoundEntries(s, front + [last]), d)
         == ValuesOf(BoundEntries(s, front), d) + if last == d && ValueAt(s, d).Some? then [ValueAt(s, d).value] else []
  {
    assert (front + [last])[..|front|] == front;
    if ValueAt(s, last).Some? {
      ValuesLast(BoundEntries(s, front), Entry(last, ValueAt(s, last).value), d);
    }
  }

  lemma {:induction false} BoundValues(s: StoreScope, dims: seq<Dimension>, d: Dimension)
    requires forall i, j :: 0 <= i < j < |dims| ==> dims[i] != dims[j]
    ensures ValuesOf(BoundEntries(s, dims), d)
         == if d in dims && ValueAt(s, d).Some? then [ValueAt(s, d).value] else []
    decreases |dims|
  {
    if dims != [] {
      var front, last := dims[..|dims| - 1], dims[|dims| - 1];
      BoundValues(s, front, d);
      BoundLast(s, front, last, d);
      MemberLast(front, last, d);
      assert dims == front + [last] && last !in front;
    }
  }

  lemma {:induction false} PurposeValues(ps: seq<Text>, d: Dimension)
    ensures ValuesOf(PurposeEntries(ps), d) == if d == Purpose then ps else []
    decreases |ps|
  {
    if ps != [] {
      var front := ps[..|ps| - 1];
      PurposeValues(front, d);
      var es := PurposeEntries(ps);
      assert es[..|es| - 1] == PurposeEntries(front);
      assert ps == front + [ps[|ps| - 1]];
    }
  }

  lemma EntryValues(s: StoreScope, dims: seq<Dimension>, d: Dimension)
    requires CheckDimensions(dims).None?
    ensures ValuesOf(Entries(s, dims), d)
         == if d == Purpose then Sort(s.purpose)
            else if d in dims && ValueAt(s, d).Some? then [ValueAt(s, d).value] else []
  {
    ValuesAppend(BoundEntries(s, dims), PurposeEntries(Sort(s.purpose)), d);
    BoundValues(s, dims, d);
    PurposeValues(Sort(s.purpose), d);
  }

  lemma {:induction false} CheckAppend(a: seq<Entry>, b: seq<Entry>)
    requires CheckEntries(a).None? && CheckEntries(b).None?
    ensures CheckEntries(a + b).None?
    decreases |b|
  {
    if b == [] {
      assert a + b == a;
    } else {
      assert (a + b)[..|a + b| - 1] == a + b[..|b| - 1];
      CheckAppend(a, b[..|b| - 1]);
    }
  }

  // ----- what the checks let pass

  predicate ControlFree(v: Text) {
    forall i :: 0 <= i < |v| ==> v[i] >= 0x20 && v[i] != 0x7F
  }

  /** Every answer of the value check: 1 to 256 code units, none of `/`, `|`, `.`, no control
      character; separators are reported before control characters. */
  lemma ValueExact(v: Text)
    ensures var code, sized := CheckValue(v), 1 <= |v| <= 256;
      && (code == None <==> sized && 0x2F !in v && 0x7C !in v && 0x2E !in v && ControlFree(v))
      && (code == Some(ConcatenatedValue) <==> sized && (0x2F in v || 0x7C in v))
      && (code == Some(PeerLabelInvalid) <==> sized && 0x2F !in v && 0x7C !in v && 0x2E in v)
      && (code == Some(EmptyValue) <==>
           (!sized || (0x2F !in v && 0x7C !in v && 0x2E !in v && !ControlFree(v))))
  {
  }

  /** Which codecs can be made: no dimension twice, and tenant and purpose among them. */
  lemma DimensionsExact(dims: seq<Dimension>)
    ensures var code, twice := CheckDimensions(dims), exists i, j :: 0 <= i < j < |dims| && dims[i] == dims[j];
      && (code == None <==> !twice && Tenant in dims && Purpose in dims)
      && (code == Some(DuplicateDimension) <==> twice)
      && (code == Some(MissingDimension) <==> !twice && !(Tenant in dims && Purpose in dims))
  {
  }

  // ----- the written form

  function Bound(name: Text, value: Option<Text>): seq<Text> {
    match value case None => [] case Some(v) => [name + v]
  }

  function PurposeSegments(purposes: seq<Text>): (r: seq<Text>)
    ensures |r| == |purposes| && forall i :: 0 <= i < |purposes| ==> r[i] == Lit("purpose:") + purposes[i]
  {
    seq(|purposes|, i requires 0 <= i < |purposes| => Lit("purpose:") + purposes[i])
  }

  lemma SegmentForms(v: Text)
    ensures Segment(Entry(Tenant, v)) == Lit("tenant:") + v && Segment(Entry(Project, v)) == Lit("project:") + v
    ensures Segment(Entry(User, v)) == Lit("user:") + v && Segment(Entry(Agent, v)) == Lit("agent:") + v
    ensures Segment(Entry(Session, v)) == Lit("session:") + v && Segment(Entry(Purpose, v)) == Lit("purpose:") + v
  {
    assert Lit("tenant") + [SEPARATOR] == Lit("tenant:") && Lit("project") + [SEPARATOR] == Lit("project:");
    assert Lit("user") + [SEPARATOR] == Lit("user:") && Lit("agent") + [SEPARATOR] == Lit("agent:");
    assert Lit("session") + [SEPARATOR] == Lit("session:") && Lit("purpose") + [SEPARATOR] == Lit("purpose:");
  }

  function BoundSegment(s: StoreScope, d: Dimension): seq<Text> {
    match ValueAt(s, d) case None => [] case Some(v) => [Segment(Entry(d, v))]
  }

  lemma BoundSegments(s: StoreScope, front: seq<Dimension>, d: Dimension)
    ensures Segments(BoundEntries(s, front + [d])) == Segments(BoundEntries(s, front)) + BoundSegment(s, d)
  {
    assert (front + [d])[..|front|] == front;
    if ValueAt(s, d).Some? {
      SegmentsLast(BoundEntries(s, front), Entry(d, ValueAt(s, d).value));
    }
  }

  lemma SixDimensions(s: StoreScope)
    ensures Segments(BoundEntries(s, SCOPE_DIMENSIONS)) == BoundSegment(s, Tenant) + BoundSegment(s, Project)
      + BoundSegment(s, User) + BoundSegment(s, Agent) + BoundSegment(s, Session)
  {
    BoundSegments(s, [], Tenant);
    assert [] + [Tenant] == [Tenant] && Segments(BoundEntries(s, [])) == [];
    BoundSegments(s, [Tenant], Project);
    assert [Tenant] + [Project] == [Tenant, Project];
    BoundSegments(s, [Tenant, Project], User);
    assert [Tenant, Project] + [User] == [Tenant, Project, User];
    BoundSegments(s, [Tenant, Project, User], Agent);
    assert [Tenant, Project, User] + [Agent] == [Tenant, Project, User, Agent];
    BoundSegments(s, [Tenant, Project, User, Agent], Session);
    assert [Tenant, Project, User, Agent] + [Session] == [Tenant, Project, User, Agent, Session];
    BoundSegments(s, [Tenant, Project, User, Agent, Session], Purpose);
    assert [Tenant, Project, User, Agent, Session] + [Purpose] == SCOPE_DIMENSIONS;
  }

  lemma BoundForm(s: StoreScope, d: Dimension)
    ensures d == Tenant ==> BoundSegment(s, d) == [Lit("tenant:") + s.tenant]
    ensures d == Project ==> BoundSegment(s, d) == Bound(Lit("project:"), s.project)
    ensures d == User ==> BoundSegment(s, d) == Bound(Lit("user:"), s.user)
    ensures d == Agent ==> BoundSegment(s, d) == Bound(Lit("agent:"), s.agent)
    ensures d == Session ==> BoundSegment(s, d) == Bound(Lit("session:"), s.session)
  {
    if ValueAt(s, d).Some? {
      SegmentForms(ValueAt(s, d).value);
    }
  }

  lemma PurposeForms(purposes: seq<Text>)
    ensures Segments(PurposeEntries(purposes)) == PurposeSegments(purposes)
  {
    forall i | 0 <= i < |purposes| ensures Segment(Entry(Purpose, purposes[i])) == Lit("purpose:") + purposes[i] {
      SegmentForms(purposes[i]);
    }
  }

  /** Sorted texts ascend, equal ones apart, at their first different code unit. */
  lemma SortedAscend(ts: seq<Text>)
    ensures multiset(Sort(ts)) == multiset(ts) && |Sort(ts)| == |ts|
    ensures forall i, j :: 0 <= i < j < |ts| ==> Sort(ts)[i] == Sort(ts)[j] || Precedes(Sort(ts)[i], Sort(ts)[j])
  {
    SortSorts(ts);
    forall i, j | 0 <= i < j < |ts| ensures Sort(ts)[i] == Sort(ts)[j] || Precedes(Sort(ts)[i], Sort(ts)[j]) {
      assert LessEq(Sort(ts)[i], Sort(ts)[j]);
      LessExact(Sort(ts)[i], Sort(ts)[j]);
    }
  }

  lemma SixJoined(s: StoreScope)
    ensures Segments(BoundEntries(s, SCOPE_DIMENSIONS)) == [Lit("tenant:") + s.tenant]
      + Bound(Lit("project:"), s.project) + Bound(Lit("user:"), s.user) + Bound(Lit("agent:"), s.agent)
      + Bound(Lit("session:"), s.session)
  {
    SixDimensions(s);
    BoundForm(s, Tenant);
    BoundForm(s, Project);
    BoundForm(s, User);
    BoundForm(s, Agent);
    BoundForm(s, Session);
  }

  /** A namespace as the default codec writes it: the bound dimensions by name in the fixed order,
      then one segment for each purpose, the purposes in ascending order. */
  lemma WrittenForm(s: StoreScope)
    requires ToNamespace(SCOPE_DIMENSIONS, s).Fine?
    ensures ToNamespace(SCOPE_DIMENSIONS, s).value == [Lit("tenant:") + s.tenant]
      + Bound(Lit("project:"), s.project) + Bound(Lit("user:"), s.user) + Bound(Lit("agent:"), s.agent)
      + Bound(Lit("session:"), s.session) + PurposeSegments(Sort(s.purpose))
  {
    SixJoined(s);
    SegmentsAppend(BoundEntries(s, SCOPE_DIMENSIONS), PurposeEntries(Sort(s.purpose)));
    PurposeForms(Sort(s.purpose));
  }

  // ----- the round trip

  function PurposesSorted(s: StoreScope): StoreScope {
    s.(purpose := Sort(s.purpose))
  }

  /** Every dimension that the scope binds is one the codec writes. */
  predicate Declares(dims: seq<Dimension>, s: StoreScope) {
    && (s.project.Some? ==> Project in dims) && (s.user.Some? ==> User in dims)
    && (s.agent.Some? ==> Agent in dims) && (s.session.Some? ==> Session in dims)
  }

  lemma WrittenIsRead(dims: seq<Dimension>, s: StoreScope)
    requires ToNamespace(dims, s).Fine?
    ensures var ns, es := ToNamespace(dims, s).value, Entries(s, dims);
      && ns == Segments(es) && |es| > 0
      && EntriesOf(ns, dims) == (if |es| > 64 then Refused(OpaqueSegment)
                                 else if NoneEndsBlank(es) then Fine(es) else Refused(EmptyValue))
      && Collect(es).Fine?
      && forall d :: Get(Collect(es).value, d) == ValuesOf(es, d)
  {
    var es := Entries(s, dims);
    CheckAppend(BoundEntries(s, dims), PurposeEntries(Sort(s.purpose)));
    SegmentsDecode(es);
    assert NamedEntries(Wrapped(es)) == es;
    forall d | d != Purpose ensures |ValuesOf(es, d)| <= 1 {
      EntryValues(s, dims, d);
    }
    CollectExact(es);
  }

  lemma FirstOf(dims: seq<Dimension>, s: StoreScope, d: Dimension)
    requires ToNamespace(dims, s).Fine? && d != Purpose
    ensures Collect(Entries(s, dims)).Fine?
    ensures First(Collect(Entries(s, dims)).value, d) == if d in dims then ValueAt(s, d) else None
  {
    WrittenIsRead(dims, s);
    EntryValues(s, dims, d);
  }

  lemma PurposesOf(dims: seq<Dimension>, s: StoreScope)
    requires ToNamespace(dims, s).Fine?
    ensures Collect(Entries(s, dims)).Fine?
    ensures Get(Collect(Entries(s, dims)).value, Purpose) == Sort(s.purpose)
  {
    WrittenIsRead(dims, s);
    EntryValues(s, dims, Purpose);
  }

  lemma ReadBack(dims: seq<Dimension>, s: StoreScope)
    requires ToNamespace(dims, s).Fine?
    ensures Collect(Entries(s, dims)).Fine?
    ensures ScopeOf(Collect(Entries(s, dims)).value) == Fine(PurposesSorted(s)) <==> Declares(dims, s)
  {
    PurposesOf(dims, s);
    FirstOf(dims, s, Tenant);
    FirstOf(dims, s, Project);
    FirstOf(dims, s, User);
    FirstOf(dims, s, Agent);
    FirstOf(dims, s, Session);
    SortIdempotent(s.purpose);
  }

  ghost predicate ValuesPass(es: seq<Entry>) {
    forall e :: e in es ==> CheckValue(e.value).None?
  }

  /** What the writer accepts: a usable codec, at least one purpose and one bound dimension,
      and no written value that the check refuses. */
  lemma WriterExact(dims: seq<Dimension>, s: StoreScope)
    ensures ToNamespace(dims, s).Fine? <==>
      && CheckDimensions(dims).None? && s.purpose != [] && Binds(s)
      && ValuesPass(BoundEntries(s, dims)) && ValuesPass(PurposeEntries(Sort(s.purpose)))
  {
    CheckAll(BoundEntries(s, dims));
    CheckAll(PurposeEntries(Sort(s.purpose)));
  }

  /** What the reader accepts: segments that stand for entries, whose values all pass, with the
      tenant exactly once, a purpose, and the other dimensions at most once, one of them bound. */
  lemma ReaderExact(dims: seq<Dimension>, ns: seq<Text>)
    ensures ToScope(dims, ns).Fine? <==>
      && EntriesOf(ns, dims).Fine?
      && var es := EntriesOf(ns, dims).value;
         && ValuesPass(es) && NoRepeats(es)
         && ValuesOf(es, Tenant) != [] && ValuesOf(es, Purpose) != []
         && (ValuesOf(es, Project) != [] || ValuesOf(es, User) != [] || ValuesOf(es, Agent) != [] ||
           ValuesOf(es, Session) != [])
  {
    if EntriesOf(ns, dims).Fine? {
      CollectExact(EntriesOf(ns, dims).value);
      CheckAll(EntriesOf(ns, dims).value);
    }
  }

  /** The round trip, exactly: a scope that was turned into a namespace is read back, with its
      purposes sorted, if and only if no written value ends in white space, there are at most
      64 segments, and the codec declares every dimension the scope binds. */
  lemma RoundTripExact(dims: seq<Dimension>, s: StoreScope)
    requires ToNamespace(dims, s).Fine?
    ensures ToScope(dims, ToNamespace(dims, s).value) == Fine(PurposesSorted(s)) <==>
      && NoneEndsBlank(Entries(s, dims)) && |ToNamespace(dims, s).value| <= 64 && Declares(dims, s)
  {
    WrittenIsRead(dims, s);
    ReadBack(dims, s);
  }

  /** Two such scopes with one namespace are one scope up to the order of purposes. */
  lemma NamespaceInjective(dims: seq<Dimension>, s: StoreScope, t: StoreScope)
    requires ToNamespace(dims, s).Fine? && ToNamespace(dims, s) == ToNamespace(dims, t)
    requires |ToNamespace(dims, s).value| <= 64 && Declares(dims, s) && Declares(dims, t)
    requires NoneEndsBlank(Entries(s, dims)) && NoneEndsBlank(Entries(t, dims))
    ensures PurposesSorted(s) == PurposesSorted(t)
  {
    RoundTripExact(dims, s);
    RoundTripExact(dims, t);
  }

  // ----- normalising a namespace

  lemma {:induction false} ValuesCount(es: seq<Entry>)
    ensures |es| == |ValuesOf(es, Tenant)| + |ValuesOf(es, Project)| + |ValuesOf(es, User)| +
                    |ValuesOf(es, Agent)| + |ValuesOf(es, Session)| + |ValuesOf(es, Purpose)|
    decreases |es|
  {
    if es != [] {
      ValuesCount(es[..|es| - 1]);
    }
  }

  lemma {:induction false} ValueFound(es: seq<Entry>, d: Dimension, v: Text)
    requires v in ValuesOf(es, d)
    ensures Entry(d, v) in es
    decreases |es|
  {
    var front, last := es[..|es| - 1], es[|es| - 1];
    assert es == front + [last];
    if v in ValuesOf(front, d) {
      ValueFound(front, d, v);
    }
  }

  lemma {:induction false} CheckAll(es: seq<Entry>)
    ensures CheckEntries(es).None? <==> forall e :: e in es ==> CheckValue(e.value).None?
    decreases |es|
  {
    if es != [] {
      CheckAll(es[..|es| - 1]);
      assert es == es[..|es| - 1] + [es[|es| - 1]];
    }
  }

  /** What the reader lets through: values that pass the check and do not end in white space. */
  lemma {:induction false} DecodedClean(ns: seq<Text>, k: nat)
    requires DecodeAll(ns).Fine? && k < |ns|
    ensures |DecodeAll(ns).value| == |ns| && DecodeSegment(ns[k]) == Fine(DecodeAll(ns).value[k])
    decreases |ns|
  {
    var front := ns[..|ns| - 1];
    assert |DecodeAll(front).value| == |front| by {
      if front != [] {
        DecodedClean(front, 0);
      }
    }
    if k < |ns| - 1 {
      DecodedClean(front, k);
    }
  }

  lemma Rebuilt(s: Text, at: nat, head: Text, sep: CodeUnit, tail: Text)
    requires at < |s| && s[..at] == head && s[at] == sep && s[at + 1..] == tail
    ensures s == head + [sep] + tail
    ensures EndsBlank(tail) ==> IsBlank(s[|s| - 1])
  {
    assert tail != [] ==> tail[|tail| - 1] == s[|s| - 1];
  }

  /** What reading a named segment found: where the separator is, and what surrounds it. */
  lemma NamedParts(segment: Text, e: Entry) returns (at: nat)
    requires DecodeSegment(segment) == Fine(Named(e))
    ensures at < |segment| && segment[at] == SEPARATOR && Trimmed(segment)
    ensures segment[..at] == DimName(e.dim) && segment[at + 1..] == e.value
  {
    at := IndexOf(segment, SEPARATOR);
  }

  lemma ReadNamedClean(segment: Text, e: Entry)
    requires DecodeSegment(segment) == Fine(Named(e))
    ensures !EndsBlank(e.value) && segment == Segment(e)
  {
    var at := NamedParts(segment, e);
    Rebuilt(segment, at, DimName(e.dim), SEPARATOR, e.value);
  }

  lemma ReadBareClean(segment: Text, v: Text)
    requires DecodeSegment(segment) == Fine(Bare(v))
    ensures !EndsBlank(v) && v == segment && BAR !in segment
  {
  }

  lemma ReadValueClean(segment: Text)
    requires DecodeSegment(segment).Fine?
    ensures match DecodeSegment(segment).value
      case Named(e) => !EndsBlank(e.value) && segment == Segment(e)
      case Bare(v) => !EndsBlank(v) && v == segment && BAR !in segment
  {
    match DecodeSegment(segment).value
    case Named(e) => ReadNamedClean(segment, e);
    case Bare(v) => ReadBareClean(segment, v);
  }

  lemma ReadEntriesClean(ns: seq<Text>, dims: seq<Dimension>, e: Entry)
    requires EntriesOf(ns, dims).Fine? && e in EntriesOf(ns, dims).value
    ensures !EndsBlank(e.value) && |EntriesOf(ns, dims).value| == |ns|
  {
    var es := EntriesOf(ns, dims).value;
    DecodedClean(ns, 0);
    var k :| 0 <= k < |es| && es[k] == e;
    DecodedClean(ns, k);
    ReadValueClean(ns[k]);
  }

  lemma {:induction false} ValuesOfBound(s: StoreScope, dims: seq<Dimension>, e: Entry)
    requires e in BoundEntries(s, dims)
    ensures ValueAt(s, e.dim) == Some(e.value) && e.dim in dims
    decreases |dims|
  {
    var front, last := dims[..|dims| - 1], dims[|dims| - 1];
    assert dims == front + [last];
    if e in BoundEntries(s, front) {
      ValuesOfBound(s, front, e);
    }
  }

  lemma CheckedEntry(es: seq<Entry>, e: Entry)
    requires Collect(es).Fine? && e in es
    ensures CheckValue(e.value).None?
  {
    CollectExact(es);
    CheckAll(es);
  }

  lemma ScopeOfValues(m: Values, d: Dimension)
    requires ScopeOf(m).Fine?
    ensures d != Purpose ==> ValueAt(ScopeOf(m).value, d) == First(m, d)
    ensures ScopeOf(m).value.purpose == Sort(Get(m, Purpose))
  {
  }

  lemma ReadValues(dims: seq<Dimension>, ns: seq<Text>, d: Dimension)
    requires ToScope(dims, ns).Fine?
    ensures var s, vs := ToScope(dims, ns).value, ValuesOf(EntriesOf(ns, dims).value, d);
      && (d == Purpose ==> s.purpose == Sort(vs))
      && (d != Purpose ==> |vs| <= 1 && ValueAt(s, d) == if vs == [] then None else Some(vs[0]))
  {
    var es := EntriesOf(ns, dims).value;
    CollectExact(es);
    ScopeOfValues(Collect(es).value, d);
  }

  lemma BoundValueRead(dims: seq<Dimension>, ns: seq<Text>, e: Entry)
    requires ToScope(dims, ns).Fine? && e in BoundEntries(ToScope(dims, ns).value, dims)
    ensures e in EntriesOf(ns, dims).value
  {
    ValuesOfBound(ToScope(dims, ns).value, dims, e);
    ReadValues(dims, ns, e.dim);
    ValueFound(EntriesOf(ns, dims).value, e.dim, e.value);
  }

  lemma PurposeRead(dims: seq<Dimension>, ns: seq<Text>, e: Entry)
    requires ToScope(dims, ns).Fine? && e in PurposeEntries(Sort(ToScope(dims, ns).value.purpose))
    ensures e in EntriesOf(ns, dims).value
  {
    var s, vs := ToScope(dims, ns).value, ValuesOf(EntriesOf(ns, dims).value, Purpose);
    ReadValues(dims, ns, Purpose);
    SortIdempotent(vs);
    assert e.value in Sort(s.purpose);
    SameElements(Sort(s.purpose), vs, e.value);
    ValueFound(EntriesOf(ns, dims).value, Purpose, e.value);
  }

  /** Every value of a scope that was read came out of some segment. */
  lemma ScopeValuesRead(dims: seq<Dimension>, ns: seq<Text>, e: Entry)
    requires ToScope(dims, ns).Fine? && e in Entries(ToScope(dims, ns).value, dims)
    ensures e in EntriesOf(ns, dims).value && CheckValue(e.value).None? && !EndsBlank(e.value)
  {
    if e in BoundEntries(ToScope(dims, ns).value, dims) {
      BoundValueRead(dims, ns, e);
    } else {
      PurposeRead(dims, ns, e);
    }
    CheckedEntry(EntriesOf(ns, dims).value, e);
    ReadEntriesClean(ns, dims, e);
  }

  lemma SameCount(es: seq<Entry>, fs: seq<Entry>)
    requires forall d :: |ValuesOf(es, d)| == |ValuesOf(fs, d)|
    ensures |es| == |fs|
  {
    ValuesCount(es);
    ValuesCount(fs);
  }

  lemma ReadCount(dims: seq<Dimension>, ns: seq<Text>, d: Dimension)
    requires CheckDimensions(dims).None? && ToScope(dims, ns).Fine? && Declares(dims, ToScope(dims, ns).value)
    ensures |ValuesOf(Entries(ToScope(dims, ns).value, dims), d)| == |ValuesOf(EntriesOf(ns, dims).value, d)|
  {
    ReadValues(dims, ns, d);
    EntryValues(ToScope(dims, ns).value, dims, d);
  }

  lemma NormalFormShort(dims: seq<Dimension>, ns: seq<Text>)
    requires CheckDimensions(dims).None? && ToScope(dims, ns).Fine? && Declares(dims, ToScope(dims, ns).value)
    ensures |Entries(ToScope(dims, ns).value, dims)| == |ns|
  {
    var written, read := Entries(ToScope(dims, ns).value, dims), EntriesOf(ns, dims).value;
    forall d ensures |ValuesOf(written, d)| == |ValuesOf(read, d)| {
      ReadCount(dims, ns, d);
    }
    SameCount(written, read);
    ReadCountIs(dims, ns);
  }

  lemma ReadCountIs(dims: seq<Dimension>, ns: seq<Text>)
    requires EntriesOf(ns, dims).Fine?
    ensures |EntriesOf(ns, dims).value| == |ns|
  {
    DecodedClean(ns, 0);
  }

  /** What is read from a namespace can be written again, and its values read back clean. */
  lemma ReadWritable(dims: seq<Dimension>, ns: seq<Text>)
    requires CheckDimensions(dims).None? && ToScope(dims, ns).Fine?
    ensures var s := ToScope(dims, ns).value;
      ToNamespace(dims, s).Fine? && NoneEndsBlank(Entries(s, dims)) && PurposesSorted(s) == s
  {
    var s := ToScope(dims, ns).value;
    forall e | e in Entries(s, dims) ensures CheckValue(e.value).None? && !EndsBlank(e.value) {
      ScopeValuesRead(dims, ns, e);
    }
    ReadScope(dims, ns);
    WriterExact(dims, s);
  }

  lemma ReadScope(dims: seq<Dimension>, ns: seq<Text>)
    requires ToScope(dims, ns).Fine?
    ensures var s := ToScope(dims, ns).value; Binds(s) && s.purpose != [] && PurposesSorted(s) == s
  {
    ReaderExact(dims, ns);
    ReadValues(dims, ns, Purpose);
    SortIdempotent(ValuesOf(EntriesOf(ns, dims).value, Purpose));
  }

  /** Normalising: any namespace the codec reads has a canonical namespace, and that reads as
      the same scope exactly when the codec declares every dimension the scope binds; a keyed
      namespace can name others, and they are dropped. */
  lemma Normalises(dims: seq<Dimension>, ns: seq<Text>)
    requires CheckDimensions(dims).None? && ToScope(dims, ns).Fine?
    ensures var s := ToScope(dims, ns).value;
      && ToNamespace(dims, s).Fine?
      && (ToScope(dims, ToNamespace(dims, s).value) == Fine(s) <==> Declares(dims, s))
  {
    var s := ToScope(dims, ns).value;
    ReadWritable(dims, ns);
    RoundTripExact(dims, s);
    if Declares(dims, s) {
      NormalFormShort(dims, ns);
      ReadShort(dims, ns);
      WrittenIsRead(dims, s);
    }
  }

  lemma ReadShort(dims: seq<Dimension>, ns: seq<Text>)
    requires ToScope(dims, ns).Fine?
    ensures |ns| <= 64
  {
  }

  // ----- store keys

  lemma SplitFirst(head: Text, tail: Text, sep: CodeUnit)
    requires sep !in head
    ensures Split(head + [sep] + tail, sep) == [head] + Split(tail, sep)
  {
    var s := head + [sep] + tail;
    FirstAt(head, sep, tail);
    assert s[..|head|] == head && s[|head| + 1..] == tail;
  }

  lemma {:induction false} SplitJoin(parts: seq<Text>, sep: CodeUnit)
    requires parts != [] && forall p :: p in parts ==> sep !in p
    ensures Split(Join(parts, sep), sep) == parts
    decreases |parts|
  {
    assert parts[0] in parts;
    if |parts| == 1 {
      assert IndexOf(parts[0], sep) < 0;
      assert parts == [parts[0]];
    } else {
      SplitFirst(parts[0], Join(parts[1..], sep), sep);
      SplitJoin(parts[1..], sep);
      assert parts == [parts[0]] + parts[1..];
    }
  }

  lemma {:induction false} JoinAppend(parts: seq<Text>, last: Text, sep: CodeUnit)
    requires parts != []
    ensures Join(parts + [last], sep) == Join(parts, sep) + [sep] + last
    decreases |parts|
  {
    if |parts| == 1 {
      assert (parts + [last])[1..] == [last];
    } else {
      assert (parts + [last])[1..] == parts[1..] + [last];
      JoinAppend(parts[1..], last, sep);
    }
  }

  lemma SegmentWithoutBar(e: Entry)
    requires CheckValue(e.value).None?
    ensures BAR !in Segment(e)
  {
    DimNames(e.dim);
  }

  /** A segment of a namespace that was read holds no bar. */
  lemma SegmentsWithoutBar(dims: seq<Dimension>, ns: seq<Text>, k: nat)
    requires ToScope(dims, ns).Fine? && k < |ns|
    ensures BAR !in ns[k]
  {
    var es := EntriesOf(ns, dims).value;
    DecodedClean(ns, k);
    ReadValueClean(ns[k]);
    var d := DecodeAll(ns).value[k];
    if d.Named? {
      assert es[k] == d.entry && es[k] in es;
      CheckedEntry(es, d.entry);
      SegmentWithoutBar(d.entry);
    }
  }

  lemma KeyPart(key: Text)
    requires CheckValue(key).None?
    ensures BAR !in KEY_PREFIX + key && KEY_PREFIX <= KEY_PREFIX + key
    ensures (KEY_PREFIX + key)[|KEY_PREFIX|..] == key
  {
    assert KEY_PREFIX[0] == 0x6B && KEY_PREFIX[1] == 0x65 && KEY_PREFIX[2] == 0x79 && KEY_PREFIX[3] == 0x3D;
  }

  lemma Encoded(ns: seq<Text>, key: Text)
    requires EncodeStoreKey(ns, key).Fine?
    ensures ns != [] && CheckValue(key).None?
    ensures EncodeStoreKey(ns, key).value == Join(ns + [KEY_PREFIX + key], BAR)
  {
    JoinAppend(ns, KEY_PREFIX + key, BAR);
    var front := Join(ns, BAR) + [BAR];
    assert (front + KEY_PREFIX) + key == front + (KEY_PREFIX + key);
  }

  /** A store key as it is written. */
  lemma StoreKeyText(ns: seq<Text>, key: Text)
    ensures EncodeStoreKey(ns, key) ==
      if ns == [] then Refused(EmptyNamespace)
      else if CheckValue(key).Some? then Refused(CheckValue(key).value)
      else Fine(Join(ns, 0x7C) + Lit("|key=") + key)
  {
    assert [BAR] + Lit("key=") == Lit("|key=");
    var front := Join(ns, 0x7C);
    assert front + [BAR] + KEY_PREFIX == front + ([BAR] + KEY_PREFIX);
  }

  lemma KeyDecoded(dims: seq<Dimension>, ns: seq<Text>, last: Text, encoded: Text)
    requires Split(encoded, BAR) == ns + [last] && KEY_PREFIX <= last && ToScope(dims, ns).Fine?
    ensures DecodeStoreKey(dims, encoded) == Fine(StoreKey(ns, last[|KEY_PREFIX|..]))
  {
    var parts := Split(encoded, BAR);
    assert parts[|parts| - 1] == last && parts[..|parts| - 1] == ns;
  }

  /** The store key decodes to exactly the namespace and key it was made from. */
  lemma StoreKeyRoundTrip(dims: seq<Dimension>, ns: seq<Text>, key: Text)
    requires ToScope(dims, ns).Fine? && EncodeStoreKey(ns, key).Fine?
    ensures DecodeStoreKey(dims, EncodeStoreKey(ns, key).value) == Fine(StoreKey(ns, key))
  {
    var last := KEY_PREFIX + key;
    Encoded(ns, key);
    KeyPart(key);
    forall p | p in ns + [last] ensures BAR !in p {
      if p in ns {
        var k :| 0 <= k < |ns| && ns[k] == p;
        SegmentsWithoutBar(dims, ns, k);
      }
    }
    SplitJoin(ns + [last], BAR);
    KeyDecoded(dims, ns, last, EncodeStoreKey(ns, key).value);
  }

  /** No two valid pairs share an encoding. */
  lemma StoreKeyInjective(dims: seq<Dimension>, ns: seq<Text>, key: Text, ns': seq<Text>, key': Text)
    requires ToScope(dims, ns).Fine? && ToScope(dims, ns').Fine?
    requires EncodeStoreKey(ns, key).Fine? && EncodeStoreKey(ns, key) == EncodeStoreKey(ns', key')
    ensures ns == ns' && key == key'
  {
    StoreKeyRoundTrip(dims, ns, key);
    StoreKeyRoundTrip(dims, ns', key');
  }
}
