/**
 The namespace reader in full: what every segment stands for, which error every refused
 namespace gets, and which texts are store keys.
 */
module NamespaceReads {
  import opened Utf16
  import opened JsonText
  import opened Namespace
  import opened NamespaceLaws

  /** White space and line ends of ECMA-262, sections 12.2 and 12.3. */
  const WHITE_SPACE: set<CodeUnit> := {
    0x09, 0x0A, 0x0B, 0x0C, 0x0D, 0x20, 0xA0, 0x1680, 0x2000, 0x2001, 0x2002, 0x2003, 0x2004, 0x2005,
    0x2006, 0x2007, 0x2008, 0x2009, 0x200A, 0x2028, 0x2029, 0x202F, 0x205F, 0x3000, 0xFEFF}

  /** A segment that `trim` leaves as it is. */
  predicate Tidy(segment: Text) {
    segment != [] && segment[0] !in WHITE_SPACE && segment[|segment| - 1] !in WHITE_SPACE
  }

  predicate HoldsSeparator(segment: Text) {
    0x2F in segment || 0x7C in segment || 0x2E in segment
  }

  lemma TidyExact(segment: Text)
    ensures Tidy(segment) <==> segment != [] && Trimmed(segment)
  {
  }

  // ----- one segment

  /** A segment without a colon is a value, unless it holds another separator. */
  lemma BareExact(segment: Text)
    requires 0x3A !in segment
    ensures DecodeSegment(segment) ==
      if !Tidy(segment) then Refused(EmptyValue)
      else if HoldsSeparator(segment) then Refused(ConcatenatedValue)
      else Fine(Bare(segment))
  {
    TidyExact(segment);
  }

  /** What stands before the first colon has to be the name of a dimension; the rest is its
      value. */
  lemma NamedExact(head: Text, tail: Text)
    requires 0x3A !in head
    ensures var segment := head + [0x3A] + tail;
      && (!Tidy(segment) ==> DecodeSegment(segment) == Refused(EmptyValue))
      && (Tidy(segment) && (forall d :: DimName(d) != head) ==> DecodeSegment(segment) == Refused(OpaqueSegment))
      && (forall d :: Tidy(segment) && DimName(d) == head ==> DecodeSegment(segment) == Fine(Named(Entry(d, tail))))
  {
    var segment := head + [0x3A] + tail;
    TidyExact(segment);
    FirstAt(head, 0x3A, tail);
    assert segment[..|head|] == head && segment[|head| + 1..] == tail;
    forall d | DimName(d) == head ensures DimensionOf(head) == Some(d) {
      DimNameFound(d);
    }
  }

  // ----- all segments

  /** Segment k is refused, and those before it are not. */
  ghost predicate FirstRefused(ns: seq<Text>, k: nat) {
    && k < |ns| && DecodeSegment(ns[k]).Refused?
    && forall j :: 0 <= j < k ==> DecodeSegment(ns[j]).Fine?
  }

  /** The error of a namespace is that of its first refused segment. */
  lemma {:induction false} SegmentError(ns: seq<Text>, k: nat)
    requires FirstRefused(ns, k)
    ensures DecodeAll(ns) == Refused(DecodeSegment(ns[k]).code)
    decreases |ns|
  {
    var front := ns[..|ns| - 1];
    if k < |front| {
      assert FirstRefused(front, k);
      SegmentError(front, k);
    } else {
      AllDecoded(front);
    }
  }

  lemma {:induction false} AllDecoded(ns: seq<Text>)
    requires forall j :: 0 <= j < |ns| ==> DecodeSegment(ns[j]).Fine?
    ensures DecodeAll(ns).Fine? && |DecodeAll(ns).value| == |ns|
    ensures forall j :: 0 <= j < |ns| ==> DecodeSegment(ns[j]) == Fine(DecodeAll(ns).value[j])
    decreases |ns|
  {
    if ns != [] {
      AllDecoded(ns[..|ns| - 1]);
    }
  }

  ghost predicate Keyed(segment: Text) {
    0x3A in segment
  }

  lemma KeyedIsNamed(segment: Text)
    requires DecodeSegment(segment).Fine?
    ensures DecodeSegment(segment).value.Named? <==> Keyed(segment)
    ensures !Keyed(segment) ==> DecodeSegment(segment).value == Bare(segment)
  {
    if !Keyed(segment) {
      BareExact(segment);
    }
  }

  /** Which error the whole gets: for none or too many segments, for its first bad segment, for
      segments of both forms, and for values without names in the wrong number. */
  lemma EntriesErrors(ns: seq<Text>, dims: seq<Dimension>)
    ensures ns == [] ==> EntriesOf(ns, dims) == Refused(EmptyNamespace)
    ensures |ns| > 64 ==> EntriesOf(ns, dims) == Refused(OpaqueSegment)
    ensures forall k: nat :: 0 < |ns| <= 64 && FirstRefused(ns, k) ==>
      EntriesOf(ns, dims) == Refused(DecodeSegment(ns[k]).code)
    ensures 0 < |ns| <= 64 && (forall k :: 0 <= k < |ns| ==> DecodeSegment(ns[k]).Fine?) ==>
      var keyed, bare := exists k :: 0 <= k < |ns| && Keyed(ns[k]), exists k :: 0 <= k < |ns| && !Keyed(ns[k]);
      && (EntriesOf(ns, dims) == Refused(MixedEncoding) <==> keyed && bare)
      && (EntriesOf(ns, dims) == Refused(PositionalLengthMismatch) <==> !keyed && |dims| != |ns|)
      && (EntriesOf(ns, dims).Fine? <==> !bare || (!keyed && |dims| == |ns|))
  {
    forall k: nat | FirstRefused(ns, k) ensures DecodeAll(ns) == Refused(DecodeSegment(ns[k]).code) {
      SegmentError(ns, k);
    }
    if forall k :: 0 <= k < |ns| ==> DecodeSegment(ns[k]).Fine? {
      AllDecoded(ns);
      forall k | 0 <= k < |ns| ensures DecodeAll(ns).value[k].Named? <==> Keyed(ns[k]) {
        KeyedIsNamed(ns[k]);
      }
    }
  }

  /** Values without names take the codec's dimensions in their order; keyed segments name their
      own. */
  lemma EntryRead(ns: seq<Text>, dims: seq<Dimension>, k: nat)
    requires EntriesOf(ns, dims).Fine? && k < |ns|
    ensures var es := EntriesOf(ns, dims).value;
      && |es| == |ns|
      && (Keyed(ns[k]) ==> ns[k] == DimName(es[k].dim) + [0x3A] + es[k].value)
      && (!Keyed(ns[k]) ==> |dims| == |ns| && es[k] == Entry(dims[k], ns[k]))
  {
    DecodedClean(ns, k);
    KeyedIsNamed(ns[k]);
    ReadValueClean(ns[k]);
  }

  // ----- the scope

  lemma {:induction false} FirstBadEntry(es: seq<Entry>, k: nat)
    requires k < |es| && CheckValue(es[k].value).Some?
    requires ValuesPass(es[..k])
    ensures CheckEntries(es) == CheckValue(es[k].value)
    ensures NoRepeats(es[..k]) ==> Collect(es) == Refused(CheckValue(es[k].value).value)
    decreases |es|
  {
    var front := es[..|es| - 1];
    if k < |front| {
      assert front[..k] == es[..k];
      FirstBadEntry(front, k);
    } else {
      assert front == es[..k];
      CheckAll(front);
      CollectExact(front);
    }
  }

  lemma {:induction false} RepeatRefused(es: seq<Entry>)
    requires ValuesPass(es) && !NoRepeats(es)
    ensures Collect(es) == Refused(DuplicateDimension)
    decreases |es|
  {
    if es != [] {
      var front, last := es[..|es| - 1], es[|es| - 1];
      assert es == front + [last];
      assert last in es;
      CollectExact(front);
      CheckAll(front);
      CheckAll(es);
      CollectExact(es);
      if !NoRepeats(front) {
        RepeatRefused(front);
      }
    }
  }

  /** Entries get the error of the first value that is refused, if no dimension repeats before. */
  lemma ValueError(dims: seq<Dimension>, ns: seq<Text>, k: nat)
    requires EntriesOf(ns, dims).Fine? && k < |EntriesOf(ns, dims).value|
    requires var es := EntriesOf(ns, dims).value;
      CheckValue(es[k].value).Some? && ValuesPass(es[..k]) && NoRepeats(es[..k])
    ensures ToScope(dims, ns) == Refused(CheckValue(EntriesOf(ns, dims).value[k].value).value)
  {
    FirstBadEntry(EntriesOf(ns, dims).value, k);
  }

  ghost predicate NothingBound(es: seq<Entry>) {
    ValuesOf(es, Project) == [] && ValuesOf(es, User) == [] && ValuesOf(es, Agent) == [] && ValuesOf(es, Session) == []
  }

  lemma ScopeOfErrors(m: Values)
    ensures ScopeOf(m) == Refused(MissingDimension) <==> Get(m, Tenant) == [] || Get(m, Purpose) == []
    ensures ScopeOf(m) == Refused(UnboundScope) <==>
      && Get(m, Tenant) != [] && Get(m, Purpose) != [] && Get(m, Project) == [] && Get(m, User) == []
      && Get(m, Agent) == [] && Get(m, Session) == []
    ensures ScopeOf(m) != Refused(DuplicateDimension)
  {
  }

  /** Which error the others get: a dimension named twice, no tenant or no purpose, nothing else
      bound. */
  lemma ScopeErrors(dims: seq<Dimension>, ns: seq<Text>)
    requires EntriesOf(ns, dims).Fine? && ValuesPass(EntriesOf(ns, dims).value)
    ensures var es := EntriesOf(ns, dims).value;
      var missing := ValuesOf(es, Tenant) == [] || ValuesOf(es, Purpose) == [];
      && (ToScope(dims, ns) == Refused(DuplicateDimension) <==> !NoRepeats(es))
      && (ToScope(dims, ns) == Refused(MissingDimension) <==> NoRepeats(es) && missing)
      && (ToScope(dims, ns) == Refused(UnboundScope) <==> NoRepeats(es) && !missing && NothingBound(es))
  {
    var es := EntriesOf(ns, dims).value;
    if NoRepeats(es) {
      CollectExact(es);
      CheckAll(es);
      ScopeOfErrors(Collect(es).value);
    } else {
      RepeatRefused(es);
    }
  }

  /** And what a scope is read from: each dimension from the one entry that names it. */
  lemma ScopeRead(dims: seq<Dimension>, ns: seq<Text>, e: Entry)
    requires ToScope(dims, ns).Fine? && e in EntriesOf(ns, dims).value
    ensures var s := ToScope(dims, ns).value;
      && (e.dim.Tenant? ==> s.tenant == e.value) && (e.dim.Project? ==> s.project == Some(e.value))
      && (e.dim.User? ==> s.user == Some(e.value)) && (e.dim.Agent? ==> s.agent == Some(e.value))
      && (e.dim.Session? ==> s.session == Some(e.value)) && (e.dim.Purpose? ==> e.value in s.purpose)
  {
    var es := EntriesOf(ns, dims).value;
    ReadValues(dims, ns, e.dim);
    EntryCounted(es, e);
    if e.dim.Purpose? {
      SameElements(ToScope(dims, ns).value.purpose, ValuesOf(es, Purpose), e.value);
    }
  }

  lemma {:induction false} EntryCounted(es: seq<Entry>, e: Entry)
    requires e in es
    ensures e.value in ValuesOf(es, e.dim)
    decreases |es|
  {
    var front, last := es[..|es| - 1], es[|es| - 1];
    assert es == front + [last];
    if e in front {
      EntryCounted(front, e);
    }
  }

  // ----- the writer's errors

  /** Which error a scope gets that cannot be written: the first refused value of a dimension,
      no purpose, nothing bound, the first refused purpose in ascending order. */
  lemma WriterErrors(dims: seq<Dimension>, s: StoreScope)
    requires CheckDimensions(dims).None?
    ensures var bound, purposes := BoundEntries(s, dims), PurposeEntries(Sort(s.purpose));
      && (forall k :: 0 <= k < |bound| && CheckValue(bound[k].value).Some? && ValuesPass(bound[..k]) ==>
           ToNamespace(dims, s) == Refused(CheckValue(bound[k].value).value))
      && (ValuesPass(bound) ==>
           && (ToNamespace(dims, s) == Refused(MissingDimension) <==> s.purpose == [])
           && (ToNamespace(dims, s) == Refused(UnboundScope) <==>
                s.purpose != [] && s.project.None? && s.user.None? && s.agent.None? && s.session.None?)
           && (s.purpose != [] && Binds(s) ==>
                forall k :: 0 <= k < |purposes| && CheckValue(purposes[k].value).Some? && ValuesPass(purposes[..k]) ==>
                  ToNamespace(dims, s) == Refused(CheckValue(purposes[k].value).value)))
  {
    var bound, purposes := BoundEntries(s, dims), PurposeEntries(Sort(s.purpose));
    CheckAll(bound);
    forall k | 0 <= k < |bound| && CheckValue(bound[k].value).Some? && ValuesPass(bound[..k])
      ensures CheckEntries(bound) == CheckValue(bound[k].value)
    {
      FirstBadEntry(bound, k);
    }
    forall k | 0 <= k < |purposes| && CheckValue(purposes[k].value).Some? && ValuesPass(purposes[..k])
      ensures CheckEntries(purposes) == CheckValue(purposes[k].value)
    {
      FirstBadEntry(purposes, k);
    }
    CheckCodes(purposes);
  }

  lemma {:induction false} CheckCodes(es: seq<Entry>)
    ensures CheckEntries(es) != Some(MissingDimension) && CheckEntries(es) != Some(UnboundScope)
    decreases |es|
  {
    if es != [] {
      CheckCodes(es[..|es| - 1]);
    }
  }

  // ----- store keys

  lemma {:induction false} SplitParts(s: Text, sep: CodeUnit)
    ensures forall p :: p in Split(s, sep) ==> sep !in p
    decreases |s|
  {
    var at := IndexOf(s, sep);
    if at >= 0 {
      SplitParts(s[at + 1..], sep);
    } else {
      assert Split(s, sep) == [s];
    }
  }

  lemma {:induction false} JoinSplit(s: Text, sep: CodeUnit)
    ensures Join(Split(s, sep), sep) == s
    decreases |s|
  {
    var at := IndexOf(s, sep);
    if at >= 0 {
      var head, rest := s[..at], s[at + 1..];
      JoinSplit(rest, sep);
      JoinFirst(head, Split(rest, sep), sep);
      Rebuilt(s, at, head, sep, rest);
    }
  }

  lemma JoinFirst(head: Text, parts: seq<Text>, sep: CodeUnit)
    requires parts != []
    ensures Join([head] + parts, sep) == head + [sep] + Join(parts, sep)
  {
    assert ([head] + parts)[1..] == parts;
  }

  lemma LastPart(parts: seq<Text>, last: Text)
    requires parts != [] && parts[|parts| - 1] == last && KEY_PREFIX <= last
    ensures parts == parts[..|parts| - 1] + [KEY_PREFIX + last[|KEY_PREFIX|..]]
  {
    assert last == KEY_PREFIX + last[|KEY_PREFIX|..];
  }

  lemma KeyBar(key: Text)
    ensures BAR !in KEY_PREFIX + key <==> BAR !in key
  {
    assert KEY_PREFIX == [0x6B, 0x65, 0x79, 0x3D];
    if BAR in key {
      var i :| 0 <= i < |key| && key[i] == BAR;
      assert (KEY_PREFIX + key)[|KEY_PREFIX| + i] == BAR;
    }
  }

  /** Which texts are read as a store key: exactly those written from a namespace that reads as a
      scope and a key without a bar. The key's other characters are not checked again. */
  lemma StoreKeyReaderExact(dims: seq<Dimension>, encoded: Text, ns: seq<Text>, key: Text)
    ensures DecodeStoreKey(dims, encoded) == Fine(StoreKey(ns, key)) <==>
      ToScope(dims, ns).Fine? && 0x7C !in key && encoded == Join(ns, 0x7C) + Lit("|key=") + key
  {
    if DecodeStoreKey(dims, encoded) == Fine(StoreKey(ns, key)) {
      KeyRead(dims, encoded, ns, key);
    }
    if ToScope(dims, ns).Fine? && 0x7C !in key && encoded == Join(ns, 0x7C) + Lit("|key=") + key {
      KeyAccepted(dims, encoded, ns, key);
    }
  }

  lemma KeyJoined(ns: seq<Text>, key: Text)
    requires ns != []
    ensures Join(ns + [KEY_PREFIX + key], BAR) == Join(ns, 0x7C) + Lit("|key=") + key
  {
    JoinAppend(ns, KEY_PREFIX + key, BAR);
    assert [BAR] + KEY_PREFIX == Lit("|key=");
    Regrouped(Join(ns, BAR), [BAR], KEY_PREFIX, key);
  }

  lemma Regrouped(front: Text, bar: Text, prefix: Text, key: Text)
    ensures front + bar + (prefix + key) == front + (bar + prefix) + key
  {
  }

  lemma KeyRead(dims: seq<Dimension>, encoded: Text, ns: seq<Text>, key: Text)
    requires DecodeStoreKey(dims, encoded) == Fine(StoreKey(ns, key))
    ensures ToScope(dims, ns).Fine? && 0x7C !in key && encoded == Join(ns, 0x7C) + Lit("|key=") + key
  {
    var parts := Split(encoded, BAR);
    JoinSplit(encoded, BAR);
    SplitParts(encoded, BAR);
    LastPart(parts, parts[|parts| - 1]);
    assert KEY_PREFIX + key in parts;
    KeyBar(key);
    KeyJoined(ns, key);
  }

  lemma KeyAccepted(dims: seq<Dimension>, encoded: Text, ns: seq<Text>, key: Text)
    requires ToScope(dims, ns).Fine? && 0x7C !in key && encoded == Join(ns, 0x7C) + Lit("|key=") + key
    ensures DecodeStoreKey(dims, encoded) == Fine(StoreKey(ns, key))
  {
    var last := KEY_PREFIX + key;
    KeyBar(key);
    KeyJoined(ns, key);
    forall p | p in ns + [last] ensures BAR !in p {
      if p in ns {
        var k :| 0 <= k < |ns| && ns[k] == p;
        SegmentsWithoutBar(dims, ns, k);
      }
    }
    SplitJoin(ns + [last], BAR);
    assert last[|KEY_PREFIX|..] == key;
    KeyDecoded(dims, ns, last, encoded);
  }

  /** And which error the others get: for a last part that is no key, and else that of what stands
      before it as a namespace. */
  lemma StoreKeyErrors(dims: seq<Dimension>, ns: seq<Text>, last: Text)
    requires BAR !in last && forall p :: p in ns ==> BAR !in p
    ensures var read := DecodeStoreKey(dims, Join(ns + [last], 0x7C));
      && (!(Lit("key=") <= last) ==> read == Refused(OpaqueSegment))
      && (Lit("key=") <= last && ToScope(dims, ns).Refused? ==> read == Refused(ToScope(dims, ns).code))
  {
    SplitJoin(ns + [last], BAR);
    var parts := Split(Join(ns + [last], BAR), BAR);
    assert parts[|parts| - 1] == last && parts[..|parts| - 1] == ns;
  }
}
