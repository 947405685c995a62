/** A reader of JSON texts without white space, after the grammar of RFC 8259, and what it reads in
    canonical texts. It knows nothing of how they are printed. */
module JsonReader {
  import opened CanonicalText
  import opened Json
  import opened Wrappers

  // ----- Strings, section 7 of RFC 8259 -----

  function HexValue(c: CodeUnit): Option<int> {
    if 0x30 <= c <= 0x39 then Some(c as int - 0x30)
    else if 0x41 <= c <= 0x46 then Some(c as int - 0x37)
    else if 0x61 <= c <= 0x66 then Some(c as int - 0x57)
    else None
  }

  function ReadHex(t: Text): Option<CodeUnit>
    requires |t| == 4
  {
    match (HexValue(t[0]), HexValue(t[1]), HexValue(t[2]), HexValue(t[3]))
    case (Some(a), Some(b), Some(c), Some(d)) =>
      var n := a * 4096 + b * 256 + c * 16 + d;
      if 0 <= n < 0x1_0000 then Some(n as CodeUnit) else None
    case _ => None
  }

  /** What a backslash and one more unit stand for, except `u`. */
  function ShortEscape(c: CodeUnit): Option<CodeUnit> {
    match c
    case 0x22 => Some(0x22)
    case 0x5C => Some(0x5C)
    case 0x2F => Some(0x2F)
    case 0x62 => Some(0x08)
    case 0x66 => Some(0x0C)
    case 0x6E => Some(0x0A)
    case 0x72 => Some(0x0D)
    case 0x74 => Some(0x09)
    case _ => None
  }

  /** One character of a string literal, and what follows it. */
  function ReadUnit(t: Text): (r: Option<(CodeUnit, Text)>)
    requires t != []
    ensures r.Some? ==> |r.value.1| < |t|
  {
    if t[0] != 0x5C then if t[0] < 0x20 || t[0] == 0x22 then None else Some((t[0], t[1..]))
    else if |t| >= 6 && t[1] == 0x75 then
      match ReadHex(t[2..6]) case Some(c) => Some((c, t[6..])) case None => None
    else if |t| >= 2 then
      match ShortEscape(t[1]) case Some(c) => Some((c, t[2..])) case None => None
    else None
  }

  /** The characters up to the closing quote, and what follows it. */
  function ReadChars(t: Text): (r: Option<(Text, Text)>)
    ensures r.Some? ==> |r.value.1| < |t|
    decreases |t|
  {
    if t == [] then None
    else if t[0] == 0x22 then Some(([], t[1..]))
    else
      match ReadUnit(t)
      case None => None
      case Some((c, rest)) =>
        match ReadChars(rest)
        case None => None
        case Some((s, after)) => Some(([c] + s, after))
  }

  // ----- Values, sections 3 to 6 -----

  /** How many units of a number stand in front. */
  function NumberLength(t: Text): (n: nat)
    ensures n <= |t|
  {
    if t != [] && (0x30 <= t[0] <= 0x39 || t[0] in {0x2B, 0x2D, 0x2E, 0x65}) then 1 + NumberLength(t[1..]) else 0
  }

  function ReadNumber(t: Text): (r: Option<(Value, Text)>)
    ensures r.Some? ==> |r.value.1| < |t|
  {
    var n := NumberLength(t);
    if IsNumberText(t[..n]) then Some((Number(Finite(t[..n])), t[n..])) else None
  }

  function ReadValue(t: Text): (r: Option<(Value, Text)>)
    ensures r.Some? ==> |r.value.1| < |t|
    decreases |t|, 0
  {
    if t == [] then None
    else if t[0] == 0x22 then
      match ReadChars(t[1..]) case Some((s, rest)) => Some((Str(s), rest)) case None => None
    else if t[0] == 0x5B then
      if |t| > 1 && t[1] == 0x5D then Some((Arr([]), t[2..]))
      else match ReadItems(t[1..]) case Some((items, rest)) => Some((Arr(items), rest)) case None => None
    else if t[0] == 0x7B then
      if |t| > 1 && t[1] == 0x7D then Some((Obj([]), t[2..]))
      else match ReadMembers(t[1..]) case Some((members, rest)) => Some((Obj(members), rest)) case None => None
    else if [0x6E, 0x75, 0x6C, 0x6C] <= t then Some((Null, t[4..]))
    else if [0x74, 0x72, 0x75, 0x65] <= t then Some((Bool(true), t[4..]))
    else if [0x66, 0x61, 0x6C, 0x73, 0x65] <= t then Some((Bool(false), t[5..]))
    else ReadNumber(t)
  }

  /** Values separated by commas, up to the closing bracket. */
  function ReadItems(t: Text): (r: Option<(seq<Value>, Text)>)
    ensures r.Some? ==> |r.value.1| < |t|
    decreases |t|, 1
  {
    match ReadValue(t)
    case None => None
    case Some((v, rest)) =>
      if rest == [] then None
      else if rest[0] == 0x5D then Some(([v], rest[1..]))
      else if rest[0] == 0x2C then
        match ReadItems(rest[1..]) case Some((vs, after)) => Some(([v] + vs, after)) case None => None
      else None
  }

  /** Keys and values separated by commas, up to the closing brace. */
  function ReadMembers(t: Text): (r: Option<(seq<Member>, Text)>)
    ensures r.Some? ==> |r.value.1| < |t|
    decreases |t|, 1
  {
    if t == [] || t[0] != 0x22 then None
    else
      match ReadChars(t[1..])
      case None => None
      case Some((key, colon)) =>
        if colon == [] || colon[0] != 0x3A then None
        else
          match ReadValue(colon[1..])
          case None => None
          case Some((v, rest)) =>
            if rest == [] then None
            else if rest[0] == 0x7D then Some(([Member(key, v)], rest[1..]))
            else if rest[0] == 0x2C then
              match ReadMembers(rest[1..])
              case Some((ms, after)) => Some(([Member(key, v)] + ms, after))
              case None => None
            else None
  }

  /** A whole text: one value and nothing after it. */
  function ReadText(t: Text): Option<Value> {
    match ReadValue(t)
    case Some((v, rest)) => if rest == [] then Some(v) else None
    case None => None
  }

  // ----- Strings come back -----

  lemma HexReads(d: int)
    requires 0 <= d < 16
    ensures HexValue(HexDigit(d)) == Some(d)
  {}

  lemma EscapedUnitReads(c: CodeUnit, s: Text)
    ensures ReadUnit(EscapeUnit(c) + s) == Some((c, s))
  {
    var t := EscapeUnit(c) + s;
    if EscapeUnit(c) == UnicodeEscape(c) {
      UnicodeEscapeReads(c, s);
    } else if |EscapeUnit(c)| == 2 {
      assert t[2..] == s;
    } else {
      assert t[1..] == s;
    }
  }

  lemma UnicodeEscapeReads(c: CodeUnit, s: Text)
    ensures ReadUnit(UnicodeEscape(c) + s) == Some((c, s))
  {
    var n, t := c as int, UnicodeEscape(c) + s;
    assert t[2..6] == [HexDigit(n / 4096), HexDigit(n / 256 % 16), HexDigit(n / 16 % 16), HexDigit(n % 16)];
    assert t[6..] == s;
    HexReads(n / 4096);
    HexReads(n / 256 % 16);
    HexReads(n / 16 % 16);
    HexReads(n % 16);
    HexDigits(n);
    hide HexDigit, HexValue;
  }

  lemma PairReads(a: CodeUnit, b: CodeUnit, s: Text)
    requires HighSurrogate(a) && LowSurrogate(b)
    ensures ReadUnit([a, b] + s) == Some((a, [b] + s)) && ReadUnit([b] + s) == Some((b, s))
  {
    assert ([a, b] + s)[1..] == [b] + s && ([b] + s)[1..] == s;
  }

  lemma ReadCharsNext(t: Text, c: CodeUnit, rest: Text, s: Text, after: Text)
    requires t != [] && t[0] != 0x22 && ReadUnit(t) == Some((c, rest)) && ReadChars(rest) == Some((s, after))
    ensures ReadChars(t) == Some(([c] + s, after))
  {}

  lemma PairComesBack(a: CodeUnit, b: CodeUnit, rest: Text, s: Text, after: Text)
    requires HighSurrogate(a) && LowSurrogate(b) && ReadChars(rest) == Some((s, after))
    ensures ReadChars([a, b] + rest) == Some(([a, b] + s, after))
  {
    PairReads(a, b, rest);
    hide ReadUnit, ReadChars;
    ReadCharsNext([b] + rest, b, rest, s, after);
    ReadCharsNext([a, b] + rest, a, [b] + rest, [b] + s, after);
    assert [a] + ([b] + s) == [a, b] + s;
  }

  lemma {:induction false} CharsComeBack(s: Text, after: Text)
    ensures ReadChars(QuoteBody(s) + ([QUOTE] + after)) == Some((s, after))
    decreases |s|
  {
    var tail := [QUOTE] + after;
    if s == [] {
      assert QuoteBody(s) + tail == tail && tail[1..] == after;
    } else {
      FirstPieceUnit(s);
      BodySplit(s, tail);
      CharsComeBack(AfterPiece(s), after);
      var rest := QuoteBody(AfterPiece(s)) + tail;
      hide QuoteBody, ReadChars, ReadUnit, EscapeUnit;
      if StartsWithPair(s) {
        assert FirstPiece(s) == [s[0], s[1]] && s == [s[0], s[1]] + AfterPiece(s);
        PairComesBack(s[0], s[1], rest, AfterPiece(s), after);
      } else {
        assert s == [s[0]] + AfterPiece(s);
        EscapedUnitReads(s[0], rest);
        ReadCharsNext(EscapeUnit(s[0]) + rest, s[0], rest, AfterPiece(s), after);
      }
    }
  }

  /** Behind its opening quote a printed string is read to its end. */
  lemma QuotedReads(s: Text, after: Text)
    ensures var t := Quote(s) + after; t[0] == 0x22 && ReadChars(t[1..]) == Some((s, after))
  {
    CharsComeBack(s, after);
    hide QuoteBody, ReadChars;
    assert (Quote(s) + after)[1..] == QuoteBody(s) + ([QUOTE] + after);
  }

  // ----- Values come back -----

  lemma {:induction false} NumberLengthOf(a: Text, s: Text)
    requires forall i :: 0 <= i < |a| ==> NumberUnit(a[i])
    requires s == [] || !NumberUnit(s[0])
    ensures NumberLength(a + s) == |a|
  {
    if a == [] {
      assert a + s == s;
    } else {
      NumberLengthOf(a[1..], s);
      assert (a + s)[1..] == a[1..] + s;
    }
  }

  lemma NumberReads(a: NumberText, s: Text)
    requires Delimited(s)
    ensures ReadValue(a + s) == Some((Number(Finite(a)), s))
  {
    NumberLengthOf(a, s);
    hide NumberLength;
    assert (a + s)[..|a|] == a && (a + s)[|a|..] == s;
    assert (a + s)[0] == a[0];
  }

  lemma LiteralReads(v: Value, s: Text)
    requires PrintsNull(v) || v.Bool?
    ensures ReadValue(Canonicalize(v) + s) == Some((if v.Bool? then v else Null, s))
  {
    var t := Canonicalize(v);
    assert (t + s)[|t|..] == s && t <= t + s;
    assert t == NULL_TEXT || t == TRUE_TEXT || t == FALSE_TEXT;
    hide ReadItems, ReadMembers, ReadChars, ReadNumber;
  }

  lemma ArrayReads(items: seq<Value>, s: Text, ws: seq<Value>)
    requires if items == [] then ws == [] else ReadItems(JoinItems(items) + ([CLOSE_BRACKET] + s)) == Some((ws, s))
    ensures ReadValue([OPEN_BRACKET] + (JoinItems(items) + ([CLOSE_BRACKET] + s))) == Some((Arr(ws), s))
  {
    var body := JoinItems(items) + ([CLOSE_BRACKET] + s);
    var t := [OPEN_BRACKET] + body;
    assert t[1..] == body;
    if items == [] {
      assert t[2..] == s;
    } else {
      ItemsText(items, s);
      FirstUnit(items[0], ItemsTail(items, s));
      hide Canonicalize, JoinItems, ReadItems;
      assert t[1] == body[0];
    }
  }

  /** What follows a value that was read: the end of the list, or a comma and further values. */
  lemma ItemRead(t: Text, v: Value, rest: Text, vs: seq<Value>, after: Text)
    requires ReadValue(t) == Some((v, rest)) && rest != []
    requires if vs == [] then rest == [CLOSE_BRACKET] + after
      else rest[0] == COMMA && ReadItems(rest[1..]) == Some((vs, after))
    ensures ReadItems(t) == Some(([v] + vs, after))
  {
    hide ReadValue;
    if vs == [] { assert [v] + vs == [v] && rest[1..] == after; }
  }

  lemma {:induction false} ItemsReadBack(items: seq<Value>, s: Text) returns (ws: seq<Value>)
    ensures if items == [] then ws == [] else ReadItems(JoinItems(items) + ([CLOSE_BRACKET] + s)) == Some((ws, s))
    ensures |ws| == |items| && forall i :: 0 <= i < |items| ==> Alike(items[i], ws[i])
    decreases items, 0
  {
    ws := [];
    if items != [] {
      var tail := ItemsTail(items, s);
      var w := ReadsBack(items[0], tail);
      var rest := ItemsReadBack(items[1..], s);
      ws := [w] + rest;
      ItemsText(items, s);
      hide ReadValue, ReadItems, Canonicalize, JoinItems, Alike;
      if |items| == 1 { assert ws == [w]; }
      ItemRead(Canonicalize(items[0]) + tail, w, tail, if |items| == 1 then [] else rest, s);
      forall i | 0 <= i < |items| ensures Alike(items[i], ws[i]) {
        if i > 0 { assert items[i] == items[1..][i - 1] && ws[i] == rest[i - 1]; }
      }
    }
  }

  lemma ObjectReads(v: Value, ms: seq<Member>, s: Text, ns: seq<Member>)
    requires v.Obj? && forall m :: m in ms ==> m in v.members
    requires if ms == [] then ns == [] else ReadMembers(JoinMembers(v, ms) + ([CLOSE_BRACE] + s)) == Some((ns, s))
    ensures ReadValue([OPEN_BRACE] + (JoinMembers(v, ms) + ([CLOSE_BRACE] + s))) == Some((Obj(ns), s))
  {
    var body := JoinMembers(v, ms) + ([CLOSE_BRACE] + s);
    var t := [OPEN_BRACE] + body;
    assert t[1..] == body;
    if ms == [] {
      assert t[2..] == s;
    } else {
      MembersText(v, ms, s);
      hide Canonicalize, JoinMembers, ReadMembers, QuoteBody;
      assert t[1] == body[0] == QUOTE;
    }
  }

  lemma MemberRead(t: Text, key: Text, value: Text, v: Value, rest: Text, ms: seq<Member>, after: Text)
    requires t != [] && t[0] == QUOTE && ReadChars(t[1..]) == Some((key, [COLON] + value))
    requires ReadValue(value) == Some((v, rest)) && rest != []
    requires if ms == [] then rest == [CLOSE_BRACE] + after
      else rest[0] == COMMA && ReadMembers(rest[1..]) == Some((ms, after))
    ensures ReadMembers(t) == Some(([Member(key, v)] + ms, after))
  {
    assert ([COLON] + value)[1..] == value;
    hide ReadValue, ReadChars;
    if ms == [] { assert [Member(key, v)] + ms == [Member(key, v)] && rest[1..] == after; }
  }

  lemma MembersRead(v: Value, ms: seq<Member>, s: Text, w: Value, rest: seq<Member>)
    requires v.Obj? && ms != [] && forall m :: m in ms ==> m in v.members
    requires ReadValue(Canonicalize(ms[0].value) + MembersTail(v, ms, s)) == Some((w, MembersTail(v, ms, s)))
    requires if |ms| == 1 then rest == []
      else rest != [] && ReadMembers(JoinMembers(v, ms[1..]) + ([CLOSE_BRACE] + s)) == Some((rest, s))
    ensures ReadMembers(JoinMembers(v, ms) + ([CLOSE_BRACE] + s)) == Some(([Member(ms[0].key, w)] + rest, s))
  {
    var tail := MembersTail(v, ms, s);
    var value := Canonicalize(ms[0].value) + tail;
    var t := Quote(ms[0].key) + ([COLON] + value);
    MembersText(v, ms, s);
    QuotedReads(ms[0].key, [COLON] + value);
    assert |ms| > 1 ==> tail[1..] == JoinMembers(v, ms[1..]) + ([CLOSE_BRACE] + s);
    hide ReadValue, ReadMembers, ReadChars, Canonicalize, JoinMembers, Quote;
    MemberRead(t, ms[0].key, value, w, tail, rest, s);
  }

  lemma {:induction false} MembersReadBack(v: Value, ms: seq<Member>, s: Text) returns (ns: seq<Member>)
    requires v.Obj? && forall m :: m in ms ==> m in v.members
    ensures if ms == [] then ns == [] else ReadMembers(JoinMembers(v, ms) + ([CLOSE_BRACE] + s)) == Some((ns, s))
    ensures |ns| == |ms| && forall i :: 0 <= i < |ms| ==> ms[i].key == ns[i].key && Alike(ms[i].value, ns[i].value)
    decreases v, 0, |ms|
  {
    ns := [];
    if ms != [] {
      assert ms[0] in v.members;
      var w := ReadsBack(ms[0].value, MembersTail(v, ms, s));
      var rest := MembersReadBack(v, ms[1..], s);
      ns := [Member(ms[0].key, w)] + rest;
      hide ReadValue, ReadMembers, Canonicalize, JoinMembers, Alike;
      MembersRead(v, ms, s, w, rest);
      forall i | 0 <= i < |ms| ensures ms[i].key == ns[i].key && Alike(ms[i].value, ns[i].value) {
        if i > 0 { assert ms[i] == ms[1..][i - 1] && ns[i] == rest[i - 1]; }
      }
    }
  }

  /** The canonical text of a value is read as a value alike, up to where it ends. */
  lemma {:induction false} ReadsBack(v: Value, s: Text) returns (w: Value)
    requires Delimited(s)
    ensures ReadValue(Canonicalize(v) + s) == Some((w, s)) && Alike(v, w)
    decreases v, 1
  {
    match v
    case Number(Finite(a)) =>
      NumberReads(a, s);
      w := v;
    case Str(x) =>
      QuotedReads(x, s);
      w := v;
    case Arr(items) =>
      ArrayText(v, s);
      var ws := ItemsReadBack(items, s);
      w := Arr(ws);
      ArrayReads(items, s, ws);
    case Obj(members) =>
      ObjectText(v, s);
      var ms := SortedMembers(members);
      var ns := MembersReadBack(v, ms, s);
      w := Obj(ns);
      ObjectReads(v, ms, s, ns);
      PointwiseAlike(v, ms, w, ns);
    case _ =>
      LiteralReads(v, s);
      w := if v.Bool? then v else Null;
  }

  /** Reading a canonical text gives the value back, up to member order and overflowed numbers, and
      leaves nothing over. */
  lemma CanonicalTextReads(v: Value)
    ensures var r := ReadText(Canonicalize(v)); r.Some? && Alike(v, r.value)
  {
    var w := ReadsBack(v, []);
    assert Canonicalize(v) + [] == Canonicalize(v);
    hide ReadValue, Canonicalize, Alike;
  }

  // ----- Which of the possible texts it is -----

  /** A quotation mark, a backslash and five control characters have an escape of two units, other
      control characters and lone surrogates one of six; all else stands for itself. */
  function Width(s: Text): nat {
    if s == [] then 0
    else if |s| > 1 && 0xD800 <= s[0] <= 0xDBFF && 0xDC00 <= s[1] <= 0xDFFF then 2 + Width(s[2..])
    else if s[0] in {0x22, 0x5C, 0x08, 0x09, 0x0A, 0x0C, 0x0D} then 2 + Width(s[1..])
    else if s[0] < 0x20 || 0xD800 <= s[0] <= 0xDFFF then 6 + Width(s[1..])
    else 1 + Width(s[1..])
  }

  /** With what it reads as, its width tells a printed string up to the case of hexadecimal digits. */
  lemma {:induction false} QuoteWidth(s: Text)
    ensures |Quote(s)| == Width(s) + 2
    decreases |s|
  {
    if s != [] {
      QuoteWidth(AfterPiece(s));
      BodySplit(s, []);
      assert QuoteBody(s) + [] == QuoteBody(s);
    }
  }

  /** And those are small. */
  lemma HexIsSmall(c: CodeUnit)
    ensures |EscapeUnit(c)| == 6 ==> forall i :: 2 <= i < 6 ==> !(0x41 <= EscapeUnit(c)[i] <= 0x46)
  {}

  predicate DiffersAt(a: Text, b: Text, i: nat) {
    i < |a| && i < |b| && a[i] != b[i] && a[..i] == b[..i]
  }

  ghost predicate SmallerFirst(a: Text, b: Text) {
    a <= b || exists i: nat :: DiffersAt(a, b, i) && a[i] < b[i]
  }

  /** The order of keys is that of their code units at the first difference. */
  lemma {:induction false} KeyOrder(a: Text, b: Text)
    ensures TextLe(a, b) <==> SmallerFirst(a, b)
  {
    if a != [] && b != [] {
      if a[0] == b[0] {
        KeyOrder(a[1..], b[1..]);
        TailSmallerFirst(a, b);
        hide SmallerFirst;
      } else {
        assert DiffersAt(a, b, 0);
      }
    }
  }

  lemma DiffersBehind(a: Text, b: Text, i: nat)
    requires a != [] && b != [] && a[0] == b[0]
    ensures DiffersAt(a, b, i + 1) <==> DiffersAt(a[1..], b[1..], i)
  {
    var x, y := a[1..], b[1..];
    if i < |x| && i < |y| {
      assert a[..i + 1] == [a[0]] + x[..i] && b[..i + 1] == [b[0]] + y[..i];
      assert a[..i + 1][1..] == x[..i] && b[..i + 1][1..] == y[..i];
    }
  }

  lemma TailSmallerFirst(a: Text, b: Text)
    requires a != [] && b != [] && a[0] == b[0]
    ensures SmallerFirst(a, b) <==> SmallerFirst(a[1..], b[1..])
  {
    var x, y := a[1..], b[1..];
    assert a == [a[0]] + x && b == [b[0]] + y;
    if i: nat :| DiffersAt(x, y, i) && x[i] < y[i] {
      DiffersBehind(a, b, i);
      assert a[i + 1] < b[i + 1];
    }
    if i: nat :| DiffersAt(a, b, i) && a[i] < b[i] {
      DiffersBehind(a, b, i - 1);
      assert x[i - 1] < y[i - 1];
    }
  }
}
