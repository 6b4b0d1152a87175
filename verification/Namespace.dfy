/**
 Namespace <-> scope translation: the codec's two directions and the store-key encoding.
 */
module Namespace {
  import opened Utf16
  import opened JsonText

  datatype Dimension = Tenant | Project | User | Agent | Session | Purpose

  const SCOPE_DIMENSIONS: seq<Dimension> := [Tenant, Project, User, Agent, Session, Purpose]

  datatype StoreScope = StoreScope(tenant: Text, project: Option<Text>, user: Option<Text>,
                                   agent: Option<Text>, session: Option<Text>, purpose: seq<Text>)

  datatype Code = EmptyNamespace | OpaqueSegment | MixedEncoding | PositionalLengthMismatch | DuplicateDimension
                | MissingDimension | EmptyValue | ConcatenatedValue | PeerLabelInvalid | UnboundScope

  /** A result, or the code of the error that is thrown. */
  datatype Outcome<+T> = Fine(value: T) | Refused(code: Code)

  datatype Entry = Entry(dim: Dimension, value: Text)

  const SEPARATOR: CodeUnit := 0x3A
  const SLASH: CodeUnit := 0x2F
  const BAR: CodeUnit := 0x7C
  const PERIOD: CodeUnit := 0x2E

  function DimName(d: Dimension): Text {
    match d
    case Tenant => Lit("tenant")
    case Project => Lit("project")
    case User => Lit("user")
    case Agent => Lit("agent")
    case Session => Lit("session")
    case Purpose => Lit("purpose")
  }

  /** `scope[dimension]`, other than the purposes. */
  function ValueAt(s: StoreScope, d: Dimension): Option<Text> {
    match d
    case Tenant => Some(s.tenant)
    case Project => s.project
    case User => s.user
    case Agent => s.agent
    case Session => s.session
    case Purpose => None
  }

  predicate Binds(s: StoreScope) {
    s.project.Some? || s.user.Some? || s.agent.Some? || s.session.Some?
  }

  // ----- checks

  predicate IsControl(c: CodeUnit) {
    c < 0x20 || c == 0x7F
  }

  /** `assertValue` */
  function CheckValue(v: Text): Option<Code> {
    if |v| == 0 || |v| > 256 then Some(EmptyValue)
    else if SLASH in v || BAR in v then Some(ConcatenatedValue)
    else if PERIOD in v then Some(PeerLabelInvalid)
    else if exists i :: 0 <= i < |v| && IsControl(v[i]) then Some(EmptyValue)
    else None
  }

  /** `assertDimensionsUsable` */
  function CheckDimensions(dims: seq<Dimension>): Option<Code> {
    if exists i, j :: 0 <= i < j < |dims| && dims[i] == dims[j] then Some(DuplicateDimension)
    else if Tenant !in dims || Purpose !in dims then Some(MissingDimension)
    else None
  }

  /** White space as `trim` knows it. */
  predicate IsBlank(c: CodeUnit) {
    || 0x09 <= c <= 0x0D || c == 0x20 || c == 0xA0 || c == 0x1680 || 0x2000 <= c <= 0x200A
    || c == 0x2028 || c == 0x2029 || c == 0x202F || c == 0x205F || c == 0x3000 || c == 0xFEFF
  }

  predicate Trimmed(s: Text) {
    s != [] ==> !IsBlank(s[0]) && !IsBlank(s[|s| - 1])
  }

  // ----- scope to namespace

  function Segment(e: Entry): Text {
    DimName(e.dim) + [SEPARATOR] + e.value
  }

  /** The dimensions to be written, in the codec's order. */
  function BoundEntries(s: StoreScope, dims: seq<Dimension>): seq<Entry> {
    if dims == [] then []
    else
      var n := |dims| - 1;
      var before := BoundEntries(s, dims[..n]);
      match ValueAt(s, dims[n])
      case None => before
      case Some(v) => before + [Entry(dims[n], v)]
  }

  function PurposeEntries(purposes: seq<Text>): (r: seq<Entry>)
    ensures |r| == |purposes| && forall i :: 0 <= i < |purposes| ==> r[i] == Entry(Purpose, purposes[i])
  {
    seq(|purposes|, i requires 0 <= i < |purposes| => Entry(Purpose, purposes[i]))
  }

  /** The first value that is refused. */
  function CheckEntries(es: seq<Entry>): Option<Code> {
    if es == [] then None
    else
      match CheckEntries(es[..|es| - 1])
      case Some(code) => Some(code)
      case None => CheckValue(es[|es| - 1].value)
  }

  function Segments(es: seq<Entry>): (r: seq<Text>)
    ensures |r| == |es| && forall i :: 0 <= i < |es| ==> r[i] == Segment(es[i])
  {
    seq(|es|, i requires 0 <= i < |es| => Segment(es[i]))
  }

  function Entries(s: StoreScope, dims: seq<Dimension>): seq<Entry> {
    BoundEntries(s, dims) + PurposeEntries(Sort(s.purpose))
  }

  function ToNamespace(dims: seq<Dimension>, s: StoreScope): Outcome<seq<Text>> {
    match CheckDimensions(dims)
    case Some(code) => Refused(code)
    case None =>
      match CheckEntries(BoundEntries(s, dims))
      case Some(code) => Refused(code)
      case None =>
        if s.purpose == [] then Refused(MissingDimension)
        else if !Binds(s) then Refused(UnboundScope)
        else
          match CheckEntries(PurposeEntries(Sort(s.purpose)))
          case Some(code) => Refused(code)
          case None => Fine(Segments(Entries(s, dims)))
  }

  /** `namespaceFromScope` */
  method NamespaceFromScope(s: StoreScope, dims: seq<Dimension>) returns (r: Outcome<seq<Text>>)
    ensures r == ToNamespace(dims, s)
  {
    var usable := CheckDimensions(dims);
    if usable.Some? {
      return Refused(usable.value);
    }
    var bound := WriteDimensions(s, dims);
    if bound.Refused? {
      return bound;
    }
    if |s.purpose| == 0 {
      return Refused(MissingDimension);
    }
    if !Binds(s) {
      return Refused(UnboundScope);
    }
    var purposes := WritePurposes(Sort(s.purpose));
    if purposes.Refused? {
      return purposes;
    }
    SegmentsAppend(BoundEntries(s, dims), PurposeEntries(Sort(s.purpose)));
    r := Fine(bound.value + purposes.value);
  }

  lemma SegmentsAppend(a: seq<Entry>, b: seq<Entry>)
    ensures Segments(a + b) == Segments(a) + Segments(b)
  {
  }

  method WriteDimensions(s: StoreScope, dims: seq<Dimension>) returns (r: Outcome<seq<Text>>)
    ensures r == Written(BoundEntries(s, dims))
  {
    var out: seq<Text> := [];
    for i := 0 to |dims|
      invariant Written(BoundEntries(s, dims[..i])) == Fine(out)
    {
      assert dims[..i + 1][..i] == dims[..i];
      CheckMonotone(s, dims, i + 1);
      var d := dims[i];
      var value := ValueAt(s, d);
      if value.None? {
        continue;
      }
      WrittenOne(BoundEntries(s, dims[..i]), Entry(d, value.value));
      var refused := CheckValue(value.value);
      if refused.Some? {
        return Refused(refused.value);
      }
      out := out + [DimName(d) + [SEPARATOR] + value.value];
    }
    assert dims[..|dims|] == dims;
    r := Fine(out);
  }

  method WritePurposes(purposes: seq<Text>) returns (r: Outcome<seq<Text>>)
    ensures r == Written(PurposeEntries(purposes))
  {
    var out: seq<Text> := [];
    var es := PurposeEntries(purposes);
    for i := 0 to |purposes|
      invariant Written(es[..i]) == Fine(out)
    {
      assert es[..i + 1] == es[..i] + [es[i]];
      CheckPrefix(es, i + 1);
      WrittenOne(es[..i], es[i]);
      var refused := CheckValue(purposes[i]);
      if refused.Some? {
        return Refused(refused.value);
      }
      out := out + [DimName(Purpose) + [SEPARATOR] + purposes[i]];
    }
    assert es[..|purposes|] == es;
    r := Fine(out);
  }

  function Written(es: seq<Entry>): Outcome<seq<Text>> {
    match CheckEntries(es)
    case Some(code) => Refused(code)
    case None => Fine(Segments(es))
  }

  lemma WrittenOne(es: seq<Entry>, e: Entry)
    requires CheckEntries(es).None?
    ensures Written(es + [e]) ==
      if CheckValue(e.value).Some? then Refused(CheckValue(e.value).value) else Fine(Segments(es) + [Segment(e)])
  {
    assert (es + [e])[..|es|] == es;
    assert Segments(es + [e]) == Segments(es) + [Segment(e)];
  }

  /** An error found in a prefix is the error of the whole. */
  lemma {:induction false} CheckPrefix(es: seq<Entry>, k: nat)
    requires k <= |es|
    ensures CheckEntries(es[..k]).Some? ==> CheckEntries(es) == CheckEntries(es[..k])
    decreases |es|
  {
    if k < |es| {
      assert es[..|es| - 1][..k] == es[..k];
      CheckPrefix(es[..|es| - 1], k);
    } else {
      assert es[..k] == es;
    }
  }

  lemma {:induction false} CheckMonotone(s: StoreScope, dims: seq<Dimension>, k: nat)
    requires k <= |dims|
    ensures CheckEntries(BoundEntries(s, dims[..k])).Some? ==>
      CheckEntries(BoundEntries(s, dims)) == CheckEntries(BoundEntries(s, dims[..k]))
    decreases |dims|
  {
    if k < |dims| {
      var front := dims[..|dims| - 1];
      assert front[..k] == dims[..k];
      CheckMonotone(s, front, k);
      var es := BoundEntries(s, dims);
      CheckPrefix(es, |BoundEntries(s, front)|);
      assert es[..|BoundEntries(s, front)|] == BoundEntries(s, front);
    } else {
      assert dims[..k] == dims;
    }
  }

  // ----- namespace to scope

  function IndexOf(s: Text, c: CodeUnit): (i: int)
    ensures -1 <= i < |s|
    ensures i >= 0 ==> s[i] == c && c !in s[..i]
    ensures i < 0 ==> c !in s
  {
    if s == [] then -1
    else if s[0] == c then 0
    else
      var rest := IndexOf(s[1..], c);
      assert rest >= 0 ==> s[..rest + 1] == [s[0]] + s[1..][..rest];
      if rest < 0 then -1 else rest + 1
  }

  function FindDimension(name: Text, dims: seq<Dimension>): (d: Option<Dimension>)
    ensures d.Some? ==> DimName(d.value) == name
    ensures d.None? ==> forall c :: c in dims ==> DimName(c) != name
  {
    if dims == [] then None
    else if DimName(dims[0]) == name then Some(dims[0])
    else FindDimension(name, dims[1..])
  }

  /** `isScopeDimension`, naming the dimension. */
  function DimensionOf(name: Text): Option<Dimension> {
    FindDimension(name, SCOPE_DIMENSIONS)
  }

  datatype Decoded = Named(entry: Entry) | Bare(value: Text)

  function DecodeSegment(segment: Text): Outcome<Decoded> {
    if segment == [] || !Trimmed(segment) then Refused(EmptyValue)
    else
      var at := IndexOf(segment, SEPARATOR);
      if at < 0 then
        if SLASH in segment || BAR in segment || PERIOD in segment then Refused(ConcatenatedValue)
        else Fine(Bare(segment))
      else
        match DimensionOf(segment[..at])
        case None => Refused(OpaqueSegment)
        case Some(d) => Fine(Named(Entry(d, segment[at + 1..])))
  }

  function DecodeAll(ns: seq<Text>): Outcome<seq<Decoded>> {
    if ns == [] then Fine([])
    else
      match DecodeAll(ns[..|ns| - 1])
      case Refused(code) => Refused(code)
      case Fine(before) =>
        match DecodeSegment(ns[|ns| - 1])
        case Refused(code) => Refused(code)
        case Fine(d) => Fine(before + [d])
  }

  type Values = map<Dimension, seq<Text>>

  function Get(m: Values, d: Dimension): seq<Text> {
    if d in m then m[d] else []
  }

  function Push(m: Values, d: Dimension, v: Text): Values {
    m[d := Get(m, d) + [v]]
  }

  /** Named entries collected by dimension; only the purpose may repeat. */
  function Collect(es: seq<Entry>): Outcome<Values> {
    if es == [] then Fine(map[])
    else
      var e := es[|es| - 1];
      match Collect(es[..|es| - 1])
      case Refused(code) => Refused(code)
      case Fine(m) =>
        match CheckValue(e.value)
        case Some(code) => Refused(code)
        case None =>
          if e.dim != Purpose && |Get(m, e.dim)| > 0 then Refused(DuplicateDimension)
          else Fine(Push(m, e.dim, e.value))
  }

  function NamedEntries(ds: seq<Decoded>): seq<Entry>
    requires forall i :: 0 <= i < |ds| ==> ds[i].Named?
  {
    seq(|ds|, i requires 0 <= i < |ds| => ds[i].entry)
  }

  /** Positional values take the codec's dimensions in order. */
  function Placed(ds: seq<Decoded>, dims: seq<Dimension>): seq<Entry>
    requires |ds| == |dims| && forall i :: 0 <= i < |ds| ==> ds[i].Bare?
  {
    seq(|ds|, i requires 0 <= i < |ds| => Entry(dims[i], ds[i].value))
  }

  /** The entries a namespace stands for. */
  function EntriesOf(ns: seq<Text>, dims: seq<Dimension>): Outcome<seq<Entry>> {
    if |ns| == 0 then Refused(EmptyNamespace)
    else if |ns| > 64 then Refused(OpaqueSegment)
    else
      match DecodeAll(ns)
      case Refused(code) => Refused(code)
      case Fine(ds) =>
        if forall i :: 0 <= i < |ds| ==> ds[i].Named? then Fine(NamedEntries(ds))
        else if exists i :: 0 <= i < |ds| && ds[i].Named? then Refused(MixedEncoding)
        else if |dims| != |ds| then Refused(PositionalLengthMismatch)
        else Fine(Placed(ds, dims))
  }

  function Decode(ns: seq<Text>, dims: seq<Dimension>): Outcome<Values> {
    match EntriesOf(ns, dims)
    case Refused(code) => Refused(code)
    case Fine(es) => Collect(es)
  }

  function First(m: Values, d: Dimension): Option<Text> {
    if |Get(m, d)| > 0 then Some(Get(m, d)[0]) else None
  }

  function ScopeOf(m: Values): Outcome<StoreScope> {
    if First(m, Tenant).None? then Refused(MissingDimension)
    else if |Get(m, Purpose)| == 0 then Refused(MissingDimension)
    else
      var s := StoreScope(First(m, Tenant).value, First(m, Project), First(m, User), First(m, Agent), First(m, Session),
                          Sort(Get(m, Purpose)));
      if Binds(s) then Fine(s) else Refused(UnboundScope)
  }

  function ToScope(dims: seq<Dimension>, ns: seq<Text>): Outcome<StoreScope> {
    match Decode(ns, dims)
    case Refused(code) => Refused(code)
    case Fine(m) => ScopeOf(m)
  }

  /** `decode`, as loops over the segments. */
  method DecodeNamespace(ns: seq<Text>, dims: seq<Dimension>) returns (r: Outcome<Values>)
    requires CheckDimensions(dims).None?
    ensures r == Decode(ns, dims)
  {
    if |ns| == 0 {
      return Refused(EmptyNamespace);
    }
    if |ns| > 64 {
      return Refused(OpaqueSegment);
    }
    var decoded := DecodeSegments(ns);
    if decoded.Refused? {
      return Refused(decoded.code);
    }
    var segments := decoded.value;
    var keyed := NamedCount(segments);
    if keyed != 0 && keyed != |segments| {
      return Refused(MixedEncoding);
    }
    if keyed == 0 {
      assert segments[0].Bare?;
      if |dims| != |segments| {
        return Refused(PositionalLengthMismatch);
      }
      var es := Placed(segments, dims);
      r := CollectEntries(es, true);
      PlacedCollect(es, dims, |es|);
    } else {
      r := CollectEntries(NamedEntries(segments), false);
    }
  }

  method DecodeSegments(ns: seq<Text>) returns (r: Outcome<seq<Decoded>>)
    ensures r == DecodeAll(ns)
    ensures r.Fine? ==> |r.value| == |ns|
  {
    var segments: seq<Decoded> := [];
    for i := 0 to |ns|
      invariant DecodeAll(ns[..i]) == Fine(segments) && |segments| == i
    {
      assert ns[..i + 1][..i] == ns[..i];
      var d := DecodeSegment(ns[i]);
      if d.Refused? {
        DecodeAllStops(ns, i + 1);
        return Refused(d.code);
      }
      segments := segments + [d.value];
    }
    assert ns[..|ns|] == ns;
    r := Fine(segments);
  }

  /** `segments.filter((segment) => segment.keyed).length` */
  function NamedCount(ds: seq<Decoded>): (n: nat)
    ensures n <= |ds|
    ensures n == 0 <==> forall k :: 0 <= k < |ds| ==> ds[k].Bare?
    ensures n == |ds| <==> forall k :: 0 <= k < |ds| ==> ds[k].Named?
  {
    if ds == [] then 0
    else
      assert forall k :: 1 <= k < |ds| ==> ds[k] == ds[1..][k - 1];
      NamedCount(ds[1..]) + if ds[0].Named? then 1 else 0
  }

  /** The two collecting loops. The positional one has no duplicate check. */
  method CollectEntries(es: seq<Entry>, positional: bool) returns (r: Outcome<Values>)
    ensures !positional ==> r == Collect(es)
    ensures positional ==> r == CollectPositional(es)
  {
    var decoded: Values := map[];
    for i := 0 to |es|
      invariant !positional ==> Collect(es[..i]) == Fine(decoded)
      invariant positional ==> CollectPositional(es[..i]) == Fine(decoded)
    {
      assert es[..i + 1][..i] == es[..i];
      var e := es[i];
      var refused := CheckValue(e.value);
      if refused.Some? {
        CollectStops(es, i + 1);
        return Refused(refused.value);
      }
      if !positional && e.dim != Purpose && |Get(decoded, e.dim)| > 0 {
        CollectStops(es, i + 1);
        return Refused(DuplicateDimension);
      }
      decoded := Push(decoded, e.dim, e.value);
    }
    assert es[..|es|] == es;
    r := Fine(decoded);
  }

  function CollectPositional(es: seq<Entry>): Outcome<Values> {
    if es == [] then Fine(map[])
    else
      var e := es[|es| - 1];
      match CollectPositional(es[..|es| - 1])
      case Refused(code) => Refused(code)
      case Fine(m) =>
        match CheckValue(e.value)
        case Some(code) => Refused(code)
        case None => Fine(Push(m, e.dim, e.value))
  }

  lemma {:induction false} DecodeAllStops(ns: seq<Text>, k: nat)
    requires k <= |ns| && DecodeAll(ns[..k]).Refused?
    ensures DecodeAll(ns) == DecodeAll(ns[..k])
    decreases |ns|
  {
    if k < |ns| {
      assert ns[..|ns| - 1][..k] == ns[..k];
      DecodeAllStops(ns[..|ns| - 1], k);
    } else {
      assert ns[..k] == ns;
    }
  }

  lemma {:induction false} CollectStops(es: seq<Entry>, k: nat)
    requires k <= |es|
    ensures Collect(es[..k]).Refused? ==> Collect(es) == Collect(es[..k])
    ensures CollectPositional(es[..k]).Refused? ==> CollectPositional(es) == CollectPositional(es[..k])
    decreases |es|
  {
    if k < |es| {
      assert es[..|es| - 1][..k] == es[..k];
      CollectStops(es[..|es| - 1], k);
    } else {
      assert es[..k] == es;
    }
  }

  /** Where the dimensions are distinct the duplicate check never fires. */
  lemma {:induction false} PlacedCollect(es: seq<Entry>, dims: seq<Dimension>, k: nat)
    requires k <= |es| == |dims| && CheckDimensions(dims).None? && forall i :: 0 <= i < |es| ==> es[i].dim == dims[i]
    ensures Collect(es[..k]) == CollectPositional(es[..k])
    ensures Collect(es[..k]).Fine? ==>
      forall d :: |Get(Collect(es[..k]).value, d)| > 0 ==> d in dims[..k]
    ensures es[..|es|] == es
    decreases k
  {
    if k > 0 {
      PlacedCollect(es, dims, k - 1);
      assert es[..k][..k - 1] == es[..k - 1];
      assert dims[..k] == dims[..k - 1] + [dims[k - 1]];
    }
  }

  // ----- store keys

  function Split(s: Text, sep: CodeUnit): (parts: seq<Text>)
    ensures |parts| >= 1
    decreases |s|
  {
    var at := IndexOf(s, sep);
    if at < 0 then [s] else [s[..at]] + Split(s[at + 1..], sep)
  }

  const KEY_PREFIX: Text := Lit("key=")

  function EncodeStoreKey(ns: seq<Text>, key: Text): Outcome<Text> {
    if |ns| == 0 then Refused(EmptyNamespace)
    else
      match CheckValue(key)
      case Some(code) => Refused(code)
      case None => Fine(Join(ns, BAR) + [BAR] + KEY_PREFIX + key)
  }

  datatype StoreKey = StoreKey(ns: seq<Text>, key: Text)

  function DecodeStoreKey(dims: seq<Dimension>, encoded: Text): Outcome<StoreKey> {
    var parts := Split(encoded, BAR);
    var last := parts[|parts| - 1];
    if !(KEY_PREFIX <= last) then Refused(OpaqueSegment)
    else
      var ns := parts[..|parts| - 1];
      match ToScope(dims, ns)
      case Refused(code) => Refused(code)
      case Fine(_) => Fine(StoreKey(ns, last[|KEY_PREFIX|..]))
  }
}
