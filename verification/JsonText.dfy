/**
 JSON values as JavaScript holds them, `JSON.stringify` (plain and with a two-space
 indent, RFC 8259 sections 4, 5 and 7) and `JSON.parse`, with the proof that parsing
 reads back what was printed.

 A number is held as the text that Number.prototype.toString gives for it; what a number
 token read by the parser denotes is the parameter `num`.
 */
module JsonText {
  import opened Utf16

  datatype Json =
    | Null
    | Bool(b: bool)
    | Num(text: Text)
    | Str(s: Text)
    | Arr(items: seq<Json>)
    | Obj(members: seq<Member>)

  /** An own property; an object lists them in enumeration order. */
  datatype Member = Member(key: Text, value: Json)

  datatype Option<+T> = None | Some(value: T)

  const QUOTE: CodeUnit := 0x22
  const BACKSLASH: CodeUnit := 0x5C
  const COMMA: CodeUnit := 0x2C
  const COLON: CodeUnit := 0x3A
  const OPEN_BRACKET: CodeUnit := 0x5B
  const CLOSE_BRACKET: CodeUnit := 0x5D
  const OPEN_BRACE: CodeUnit := 0x7B
  const CLOSE_BRACE: CodeUnit := 0x7D
  const NEWLINE: CodeUnit := 0x0A
  const SPACE: CodeUnit := 0x20
  const LETTER_U: CodeUnit := 0x75
  const MINUS: CodeUnit := 0x2D
  const PLUS: CodeUnit := 0x2B
  const POINT: CodeUnit := 0x2E
  const ZERO: CodeUnit := 0x30

  predicate IsDigit(c: CodeUnit) { 0x30 <= c <= 0x39 }

  predicate IsExponent(c: CodeUnit) { c == 0x45 || c == 0x65 }

  predicate IsSpace(c: CodeUnit) { c == 0x20 || c == 0x09 || c == 0x0A || c == 0x0D }

  // ----- own properties: array-index keys ascending, then the rest in insertion order

  predicate IsIndex(k: Text) {
    && k != [] && (forall i :: 0 <= i < |k| ==> IsDigit(k[i]))
    && (k == [ZERO] || k[0] != ZERO)
    && (|k| < 10 || (|k| == 10 && LessEq(k, Lit("4294967294"))))
  }

  predicate IndexLess(a: Text, b: Text) {
    |a| < |b| || (|a| == |b| && Less(a, b))
  }

  predicate OwnBefore(a: Text, b: Text) {
    a != b && (IsIndex(b) ==> IsIndex(a) && IndexLess(a, b))
  }

  ghost predicate OwnOrdered(ms: seq<Member>) {
    forall i, j :: 0 <= i < j < |ms| ==> OwnBefore(ms[i].key, ms[j].key)
  }

  /** `object[key]`, for an own property. */
  function Find(ms: seq<Member>, key: Text): Option<Json> {
    if ms == [] then None
    else if ms[0].key == key then Some(ms[0].value)
    else Find(ms[1..], key)
  }

  lemma {:induction false} OwnFind(ms: seq<Member>, i: nat)
    requires OwnOrdered(ms) && i < |ms|
    ensures Find(ms, ms[i].key) == Some(ms[i].value)
  {
    if i > 0 {
      assert OwnBefore(ms[0].key, ms[i].key);
      OwnFind(ms[1..], i - 1);
    }
  }

  /** Define an own property: overwrite in place, or insert where enumeration puts it. */
  function Put(ms: seq<Member>, key: Text, value: Json): (r: seq<Member>) {
    if ms == [] then [Member(key, value)]
    else if ms[0].key == key then [Member(key, value)] + ms[1..]
    else if !OwnBefore(ms[0].key, key) then [Member(key, value)] + ms
    else [ms[0]] + Put(ms[1..], key, value)
  }

  function Build(raw: seq<Member>): seq<Member> {
    if raw == [] then []
    else Put(Build(raw[..|raw| - 1]), raw[|raw| - 1].key, raw[|raw| - 1].value)
  }

  lemma {:induction false} PutAppends(ms: seq<Member>, m: Member)
    requires OwnOrdered(ms + [m])
    ensures Put(ms, m.key, m.value) == ms + [m]
  {
    if ms != [] {
      var all := ms + [m];
      assert OwnBefore(all[0].key, all[|ms|].key);
      assert ms[1..] + [m] == all[1..];
      PutAppends(ms[1..], m);
    }
  }

  lemma {:induction false} BuildOrdered(ms: seq<Member>)
    requires OwnOrdered(ms)
    ensures Build(ms) == ms
  {
    if ms != [] {
      var front := ms[..|ms| - 1];
      BuildOrdered(front);
      assert front + [ms[|ms| - 1]] == ms;
      PutAppends(front, ms[|ms| - 1]);
    }
  }

  // ----- printing

  /** `indent`: the two-space form. `escaped`: `&`, `<`, `>`, U+2028 and U+2029 written
      as \uXXXX escapes inside strings. */
  datatype Style = Style(indent: bool, escaped: bool)

  predicate IsMarkup(c: CodeUnit) {
    c == 0x26 || c == 0x3C || c == 0x3E || c == 0x2028 || c == 0x2029
  }

  function HexDigit(n: int): CodeUnit
    requires 0 <= n < 16
  {
    if n < 10 then (0x30 + n) as CodeUnit else (0x57 + n) as CodeUnit
  }

  function UnicodeEscape(c: CodeUnit): (r: Text)
    ensures |r| == 6
  {
    var n := c as int;
    [BACKSLASH, LETTER_U, HexDigit(n / 4096), HexDigit(n / 256 % 16), HexDigit(n / 16 % 16), HexDigit(n % 16)]
  }

  function ShortEscape(c: CodeUnit): Option<CodeUnit> {
    if c == 0x08 then Some(0x62) else if c == 0x09 then Some(0x74) else if c == 0x0A then Some(0x6E)
    else if c == 0x0C then Some(0x66) else if c == 0x0D then Some(0x72)
    else if c == QUOTE then Some(QUOTE) else if c == BACKSLASH then Some(BACKSLASH)
    else None
  }

  /** One code unit that is not part of a surrogate pair. */
  function EscapeUnit(st: Style, c: CodeUnit): Text {
    match ShortEscape(c)
    case Some(letter) => [BACKSLASH, letter]
    case None =>
      if c < 0x20 || IsLead(c) || IsTrail(c) || (st.escaped && IsMarkup(c)) then UnicodeEscape(c) else [c]
  }

  function EscapeString(st: Style, s: Text): Text {
    if s == [] then []
    else if IsLead(s[0]) && |s| > 1 && IsTrail(s[1]) then [s[0], s[1]] + EscapeString(st, s[2..])
    else EscapeUnit(st, s[0]) + EscapeString(st, s[1..])
  }

  function Quote(st: Style, s: Text): Text {
    [QUOTE] + EscapeString(st, s) + [QUOTE]
  }

  function Break(st: Style, depth: nat): Text {
    if st.indent then [NEWLINE] + seq(2 * depth, _ => SPACE) else []
  }

  function Print(st: Style, v: Json, depth: nat): Text
    decreases v
  {
    match v
    case Null => Lit("null")
    case Bool(b) => if b then Lit("true") else Lit("false")
    case Num(text) => text
    case Str(s) => Quote(st, s)
    case Arr(items) =>
      if items == [] then [OPEN_BRACKET, CLOSE_BRACKET]
      else [OPEN_BRACKET] + Break(st, depth + 1) + PrintItems(st, items, depth + 1) + Break(st, depth) + [CLOSE_BRACKET]
    case Obj(members) =>
      if members == [] then [OPEN_BRACE, CLOSE_BRACE]
      else [OPEN_BRACE] + Break(st, depth + 1) + PrintMembers(st, members, depth + 1) + Break(st, depth) + [CLOSE_BRACE]
  }

  function PrintItems(st: Style, items: seq<Json>, depth: nat): Text
    requires items != []
    decreases items
  {
    Print(st, items[0], depth) +
    if |items| == 1 then [] else [COMMA] + Break(st, depth) + PrintItems(st, items[1..], depth)
  }

  function PrintMembers(st: Style, members: seq<Member>, depth: nat): Text
    requires members != []
    decreases members
  {
    PrintMember(st, members[0], depth) +
    if |members| == 1 then [] else [COMMA] + Break(st, depth) + PrintMembers(st, members[1..], depth)
  }

  function PrintMember(st: Style, m: Member, depth: nat): Text
    decreases m
  {
    Quote(st, m.key) + [COLON] + (if st.indent then [SPACE] else []) + Print(st, m.value, depth)
  }

  // ----- parsing

  datatype Parsed<+T> = Fail | Ok(value: T, rest: Text)

  function SkipSpace(s: Text): (r: Text)
    ensures |r| <= |s|
  {
    if s != [] && IsSpace(s[0]) then SkipSpace(s[1..]) else s
  }

  function HexValue(c: CodeUnit): Option<int> {
    if 0x30 <= c <= 0x39 then Some(c as int - 0x30)
    else if 0x41 <= c <= 0x46 then Some(c as int - 0x37)
    else if 0x61 <= c <= 0x66 then Some(c as int - 0x57)
    else None
  }

  function Unescape(letter: CodeUnit): Option<CodeUnit> {
    if letter == QUOTE || letter == BACKSLASH || letter == 0x2F then Some(letter)
    else if letter == 0x62 then Some(0x08) else if letter == 0x66 then Some(0x0C)
    else if letter == 0x6E then Some(0x0A) else if letter == 0x72 then Some(0x0D)
    else if letter == 0x74 then Some(0x09)
    else None
  }

  /** Four hexadecimal digits. */
  function ParseHex(s: Text): Option<CodeUnit> {
    if |s| < 4 then None
    else
      match (HexValue(s[0]), HexValue(s[1]), HexValue(s[2]), HexValue(s[3]))
      case (Some(a), Some(b), Some(c), Some(d)) =>
        var n := 4096 * a + 256 * b + 16 * c + d;
        if 0 <= n < 0x1_0000 then Some(n as CodeUnit) else None
      case _ => None
  }

  /** The rest of a string literal, after its opening quote. */
  function ParseString(s: Text): (r: Parsed<Text>)
    ensures r.Ok? ==> |r.rest| < |s|
  {
    if s == [] then Fail
    else if s[0] == QUOTE then Ok([], s[1..])
    else if s[0] == BACKSLASH then
      if |s| == 1 then Fail
      else if s[1] == LETTER_U then
        match ParseHex(s[2..])
        case None => Fail
        case Some(c) => Prepend(c, ParseString(s[6..]))
      else
        match Unescape(s[1])
        case None => Fail
        case Some(c) => Prepend(c, ParseString(s[2..]))
    else if s[0] < 0x20 then Fail
    else Prepend(s[0], ParseString(s[1..]))
  }

  function Prepend(c: CodeUnit, r: Parsed<Text>): Parsed<Text> {
    match r
    case Fail => Fail
    case Ok(tail, rest) => Ok([c] + tail, rest)
  }

  function DigitsLength(s: Text): (n: nat)
    ensures n <= |s|
  {
    if s != [] && IsDigit(s[0]) then 1 + DigitsLength(s[1..]) else 0
  }

  function SignLength(s: Text): (n: nat)
    ensures n <= |s|
  {
    if s != [] && s[0] == MINUS then 1 else 0
  }

  function IntegerLength(s: Text): (n: nat)
    ensures n <= |s|
  {
    if s != [] && s[0] == ZERO then 1 else DigitsLength(s)
  }

  function FractionLength(s: Text): (n: nat)
    ensures n <= |s|
  {
    if s != [] && s[0] == POINT && DigitsLength(s[1..]) > 0 then 1 + DigitsLength(s[1..]) else 0
  }

  function ExponentLength(s: Text): (n: nat)
    ensures n <= |s|
  {
    if s != [] && IsExponent(s[0]) then
      var sign := if |s| > 1 && (s[1] == PLUS || s[1] == MINUS) then 1 else 0;
      var digits := DigitsLength(s[1 + sign..]);
      if digits > 0 then 1 + sign + digits else 0
    else 0
  }

  /** Length of the number token at the front of s (RFC 8259 section 6), 0 if there is none. */
  function NumberLength(s: Text): (n: nat)
    ensures n <= |s|
  {
    var sign := SignLength(s);
    var whole := IntegerLength(s[sign..]);
    if whole == 0 then 0
    else
      var a := sign + whole;
      var b := a + FractionLength(s[a..]);
      b + ExponentLength(s[b..])
  }

  predicate IsNumber(t: Text) {
    t != [] && NumberLength(t) == |t|
  }

  /** A literal name or a number. */
  function ParsePlain(num: Text -> Text, t: Text): (r: Parsed<Json>)
    ensures r.Ok? ==> |r.rest| < |t|
  {
    if Lit("null") <= t then Ok(Null, t[4..])
    else if Lit("true") <= t then Ok(Bool(true), t[4..])
    else if Lit("false") <= t then Ok(Bool(false), t[5..])
    else
      var n := NumberLength(t);
      if n == 0 then Fail else Ok(Num(num(t[..n])), t[n..])
  }

  function ParseValue(num: Text -> Text, s: Text): (r: Parsed<Json>)
    ensures r.Ok? ==> |r.rest| < |s|
    decreases |s|, 1
  {
    var t := SkipSpace(s);
    if t == [] then Fail
    else if t[0] == QUOTE then
      match ParseString(t[1..])
      case Fail => Fail
      case Ok(str, rest) => Ok(Str(str), rest)
    else if t[0] == OPEN_BRACKET then
      var u := SkipSpace(t[1..]);
      if u != [] && u[0] == CLOSE_BRACKET then Ok(Arr([]), u[1..])
      else
        match ParseItems(num, t[1..])
        case Fail => Fail
        case Ok(items, rest) => Ok(Arr(items), rest)
    else if t[0] == OPEN_BRACE then
      var u := SkipSpace(t[1..]);
      if u != [] && u[0] == CLOSE_BRACE then Ok(Obj([]), u[1..])
      else
        match ParseMembers(num, t[1..])
        case Fail => Fail
        case Ok(raw, rest) => Ok(Obj(Build(raw)), rest)
    else ParsePlain(num, t)
  }

  /** Array elements up to and including the closing bracket. */
  function ParseItems(num: Text -> Text, s: Text): (r: Parsed<seq<Json>>)
    ensures r.Ok? ==> |r.rest| < |s|
    decreases |s|, 2
  {
    match ParseValue(num, s)
    case Fail => Fail
    case Ok(v, rest) =>
      var t := SkipSpace(rest);
      if t == [] then Fail
      else if t[0] == CLOSE_BRACKET then Ok([v], t[1..])
      else if t[0] == COMMA then
        match ParseItems(num, t[1..])
        case Fail => Fail
        case Ok(items, rest') => Ok([v] + items, rest')
      else Fail
  }

  /** Object members, in text order, up to and including the closing brace. */
  function ParseMembers(num: Text -> Text, s: Text): (r: Parsed<seq<Member>>)
    ensures r.Ok? ==> |r.rest| < |s|
    decreases |s|, 2
  {
    match ParseMember(num, s)
    case Fail => Fail
    case Ok(m, rest) =>
      var t := SkipSpace(rest);
      if t == [] then Fail
      else if t[0] == CLOSE_BRACE then Ok([m], t[1..])
      else if t[0] == COMMA then
        match ParseMembers(num, t[1..])
        case Fail => Fail
        case Ok(members, rest') => Ok([m] + members, rest')
      else Fail
  }

  function ParseMember(num: Text -> Text, s: Text): (r: Parsed<Member>)
    ensures r.Ok? ==> |r.rest| < |s|
    decreases |s|, 1
  {
    var t := SkipSpace(s);
    if t == [] || t[0] != QUOTE then Fail
    else
      match ParseString(t[1..])
      case Fail => Fail
      case Ok(key, afterKey) =>
        var u := SkipSpace(afterKey);
        if u == [] || u[0] != COLON then Fail
        else
          match ParseValue(num, u[1..])
          case Fail => Fail
          case Ok(v, rest) => Ok(Member(key, v), rest)
  }

  /** `JSON.parse`; None where it throws. */
  function Parse(num: Text -> Text, s: Text): Option<Json> {
    match ParseValue(num, s)
    case Fail => None
    case Ok(v, rest) => if SkipSpace(rest) == [] then Some(v) else None
  }

  // ----- values that JavaScript can hold

  /** Every number is one that prints as its own text, every object lists its properties
      in enumeration order, once each. */
  ghost predicate Proper(num: Text -> Text, v: Json) {
    match v
    case Null => true
    case Bool(_) => true
    case Num(t) => IsNumber(t) && num(t) == t
    case Str(_) => true
    case Arr(items) => forall x | x in items :: Proper(num, x)
    case Obj(members) => OwnOrdered(members) && forall m | m in members :: Proper(num, m.value)
  }
}
