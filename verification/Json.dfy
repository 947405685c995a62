/** JSON values as `JSON.parse` returns them, and the text `canonicalize` prints for them.
    Strings are sequences of UTF-16 code units, as in JavaScript, so a lone surrogate is a value. */
module Json {
  import opened StableSort

  newtype CodeUnit = x: int | 0 <= x < 0x1_0000
  type Text = seq<CodeUnit>

  const QUOTE: CodeUnit := 0x22
  const COMMA: CodeUnit := 0x2C
  const COLON: CodeUnit := 0x3A
  const OPEN_BRACKET: CodeUnit := 0x5B
  const BACKSLASH: CodeUnit := 0x5C
  const CLOSE_BRACKET: CodeUnit := 0x5D
  const OPEN_BRACE: CodeUnit := 0x7B
  const CLOSE_BRACE: CodeUnit := 0x7D
  const NULL_TEXT: Text := [0x6E, 0x75, 0x6C, 0x6C]
  const TRUE_TEXT: Text := [0x74, 0x72, 0x75, 0x65]
  const FALSE_TEXT: Text := [0x66, 0x61, 0x6C, 0x73, 0x65]

  /** `0`-`9`, `+`, `-`, `.` and `e`: all that Number.prototype.toString uses for a finite number. */
  predicate NumberUnit(c: CodeUnit) {
    0x30 <= c <= 0x39 || c == 0x2B || c == 0x2D || c == 0x2E || c == 0x65
  }

  predicate IsNumberText(t: Text) {
    && t != []
    && (0x30 <= t[0] <= 0x39 || t[0] == 0x2D)
    && forall i :: 0 <= i < |t| ==> NumberUnit(t[i])
  }

  /** A finite number is given by its shortest decimal text. A literal too large for a double
      parses to an infinity, for which `JSON.stringify` prints `null`. */
  type NumberText = t: Text | IsNumberText(t) witness [0x30]
  datatype Numeral = Finite(text: NumberText) | Infinite(negative: bool)

  datatype Member = Member(key: Text, value: Value)
  datatype Value =
    | Null
    | Bool(b: bool)
    | Number(n: Numeral)
    | Str(s: Text)
    | Arr(items: seq<Value>)
    | Obj(members: seq<Member>)

  // ----- JSON.stringify of a string (QuoteJSONString of ECMAScript) -----

  predicate HighSurrogate(c: CodeUnit) { 0xD800 <= c <= 0xDBFF }

  predicate LowSurrogate(c: CodeUnit) { 0xDC00 <= c <= 0xDFFF }

  function HexDigit(d: int): CodeUnit
    requires 0 <= d < 16
  {
    if d < 10 then (0x30 + d) as CodeUnit else (0x57 + d) as CodeUnit
  }

  function UnicodeEscape(c: CodeUnit): Text {
    var n := c as int;
    [BACKSLASH, 0x75, HexDigit(n / 4096), HexDigit(n / 256 % 16), HexDigit(n / 16 % 16), HexDigit(n % 16)]
  }

  /** One code unit that is not half of a surrogate pair. */
  function EscapeUnit(c: CodeUnit): Text {
    if c == QUOTE || c == BACKSLASH then [BACKSLASH, c]
    else if c == 0x08 then [BACKSLASH, 0x62]
    else if c == 0x09 then [BACKSLASH, 0x74]
    else if c == 0x0A then [BACKSLASH, 0x6E]
    else if c == 0x0C then [BACKSLASH, 0x66]
    else if c == 0x0D then [BACKSLASH, 0x72]
    else if c < 0x20 || HighSurrogate(c) || LowSurrogate(c) then UnicodeEscape(c)
    else [c]
  }

  function QuoteBody(s: Text): Text {
    if s == [] then []
    else if |s| > 1 && HighSurrogate(s[0]) && LowSurrogate(s[1]) then s[..2] + QuoteBody(s[2..])
    else EscapeUnit(s[0]) + QuoteBody(s[1..])
  }

  function Quote(s: Text): Text { [QUOTE] + QuoteBody(s) + [QUOTE] }

  // ----- canonicalize -----

  predicate TextLe(a: Text, b: Text) {
    a == [] || (b != [] && (a[0] < b[0] || (a[0] == b[0] && TextLe(a[1..], b[1..]))))
  }

  predicate MemberLe(a: Member, b: Member) { TextLe(a.key, b.key) }

  function SortedMembers(ms: seq<Member>): (r: seq<Member>)
    ensures forall m :: m in r <==> m in ms
    ensures |r| == |ms|
  {
    SortMembers(MemberLe, ms);
    Sort(MemberLe, ms)
  }

  function NumeralText(n: Numeral): Text {
    match n
    case Finite(t) => t
    case Infinite(_) => NULL_TEXT
  }

  function Canonicalize(v: Value): Text
    decreases v, 1
  {
    match v
    case Null => NULL_TEXT
    case Bool(b) => if b then TRUE_TEXT else FALSE_TEXT
    case Number(n) => NumeralText(n)
    case Str(s) => Quote(s)
    case Arr(items) => [OPEN_BRACKET] + JoinItems(items) + [CLOSE_BRACKET]
    case Obj(ms) => [OPEN_BRACE] + JoinMembers(v, SortedMembers(ms)) + [CLOSE_BRACE]
  }

  function JoinItems(items: seq<Value>): Text
    decreases items, 0
  {
    if items == [] then []
    else Canonicalize(items[0]) + (if |items| == 1 then [] else [COMMA] + JoinItems(items[1..]))
  }

  /** The text of some members `ms` of the object `v`. */
  function JoinMembers(v: Value, ms: seq<Member>): Text
    requires v.Obj? && forall m :: m in ms ==> m in v.members
    decreases v, 0, |ms|
  {
    if ms == [] then []
    else
      assert ms[0] in v.members;
      Quote(ms[0].key) + [COLON] + Canonicalize(ms[0].value)
      + (if |ms| == 1 then [] else [COMMA] + JoinMembers(v, ms[1..]))
  }

  // ----- What the text is meant to identify -----

  /** No object has two members with one key: `JSON.parse` keeps the last of them. */
  ghost predicate DistinctKeys(v: Value)
    decreases v
  {
    match v
    case Arr(items) => forall i :: 0 <= i < |items| ==> DistinctKeys(items[i])
    case Obj(ms) =>
      && (forall i, j :: 0 <= i < j < |ms| ==> ms[i].key != ms[j].key)
      && (forall i :: 0 <= i < |ms| ==> DistinctKeys(ms[i].value))
    case _ => true
  }

  predicate PrintsNull(v: Value) {
    v.Null? || (v.Number? && v.n.Infinite?)
  }

  /** Equality that ignores the order of object members and reads an overflowed number as null. */
  ghost predicate Alike(v: Value, w: Value)
    decreases v
  {
    if PrintsNull(v) || PrintsNull(w) then PrintsNull(v) && PrintsNull(w)
    else match v
      case Arr(xs) => w.Arr? && |xs| == |w.items| && forall i :: 0 <= i < |xs| ==> Alike(xs[i], w.items[i])
      case Obj(ms) =>
        && w.Obj?
        && (forall m :: m in ms ==> HasAlikeIn(m, w.members))
        && (forall n :: n in w.members ==> exists m :: m in ms && m.key == n.key)
      case _ => v == w
  }

  ghost predicate HasAlikeIn(m: Member, ns: seq<Member>)
    decreases m
  {
    exists n :: n in ns && n.key == m.key && Alike(m.value, n.value)
  }
}
