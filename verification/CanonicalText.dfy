/** `canonicalize` prints two values alike exactly when they are equal up to member order. */
module CanonicalText {
  import opened StableSort
  import opened Json

  // ----- Key order -----

  lemma {:induction false} TextLeTotal(a: Text, b: Text)
    ensures TextLe(a, b) || TextLe(b, a)
    ensures TextLe(a, b) && TextLe(b, a) ==> a == b
  {
    if a != [] && b != [] && a[0] == b[0] {
      TextLeTotal(a[1..], b[1..]);
      assert a == [a[0]] + a[1..] && b == [b[0]] + b[1..];
    }
  }

  lemma {:induction false} TextLeTransitive(a: Text, b: Text, c: Text)
    requires TextLe(a, b) && TextLe(b, c)
    ensures TextLe(a, c)
  {
    if a != [] && a[0] == b[0] == c[0] {
      TextLeTransitive(a[1..], b[1..], c[1..]);
    }
  }

  lemma MemberOrder()
    ensures TotalPreorder(MemberLe)
  {
    forall a: Member, b: Member ensures MemberLe(a, b) || MemberLe(b, a) {
      TextLeTotal(a.key, b.key);
    }
    forall a: Member, b: Member, c: Member | MemberLe(a, b) && MemberLe(b, c) ensures MemberLe(a, c) {
      TextLeTransitive(a.key, b.key, c.key);
    }
  }

  ghost predicate Ascending(ms: seq<Member>) {
    forall i, j :: 0 <= i < j < |ms| ==> TextLe(ms[i].key, ms[j].key) && ms[i].key != ms[j].key
  }

  lemma SortedMembersAscend(ms: seq<Member>)
    requires forall i, j :: 0 <= i < j < |ms| ==> ms[i].key != ms[j].key
    ensures Ascending(SortedMembers(ms))
  {
    MemberOrder();
    SortSorts(MemberLe, ms);
    SortKeepsPairwise(MemberLe, ms, (m: Member, n: Member) => m.key != n.key);
  }

  // ----- The printed text is a prefix code -----

  predicate Delimited(t: Text) {
    t == [] || t[0] == COMMA || t[0] == CLOSE_BRACKET || t[0] == CLOSE_BRACE
  }

  lemma SplitAt(a: Text, s: Text, b: Text, t: Text)
    requires a + s == b + t && |a| == |b|
    ensures a == b && s == t
  {
    assert a == (a + s)[..|a|] && b == (b + t)[..|b|];
    assert s == (a + s)[|a|..] && t == (b + t)[|b|..];
  }

  lemma UnicodeEscapeInjective(c: CodeUnit, d: CodeUnit)
    requires UnicodeEscape(c) == UnicodeEscape(d)
    ensures c == d
  {
    forall i | 2 <= i < 6 ensures UnicodeEscape(c)[i] == UnicodeEscape(d)[i] {}
    HexDigits(c as int);
    HexDigits(d as int);
  }

  lemma HexDigits(n: int)
    requires 0 <= n < 65536
    ensures n == n / 4096 * 4096 + n / 256 % 16 * 256 + n / 16 % 16 * 16 + n % 16
  {
    assert n / 256 == n / 4096 * 16 + n / 256 % 16;
    assert n / 16 == n / 256 * 16 + n / 16 % 16;
  }

  lemma EscapeUnitPrefix(c: CodeUnit, d: CodeUnit, s: Text, t: Text)
    requires EscapeUnit(c) + s == EscapeUnit(d) + t
    ensures c == d && s == t
  {
    var x, y := EscapeUnit(c) + s, EscapeUnit(d) + t;
    assert x[0] == y[0] && (x[0] == BACKSLASH ==> x[1] == y[1]);
    SplitAt(EscapeUnit(c), s, EscapeUnit(d), t);
    if x[0] == BACKSLASH && x[1] == 0x75 {
      UnicodeEscapeInjective(c, d);
    }
  }

  predicate StartsWithPair(s: Text) { |s| > 1 && HighSurrogate(s[0]) && LowSurrogate(s[1]) }

  /** What a nonempty quoted body begins with, and what follows it. */
  function FirstPiece(s: Text): Text
    requires s != []
  {
    if StartsWithPair(s) then s[..2] else EscapeUnit(s[0])
  }

  function AfterPiece(s: Text): Text
    requires s != []
  {
    if StartsWithPair(s) then s[2..] else s[1..]
  }

  lemma FirstPieceUnit(s: Text)
    requires s != []
    ensures FirstPiece(s)[0] != QUOTE
    ensures HighSurrogate(FirstPiece(s)[0]) <==> StartsWithPair(s)
  {}

  lemma FirstPiecePrefix(a: Text, b: Text, s: Text, t: Text)
    requires a != [] && b != []
    requires FirstPiece(a) + s == FirstPiece(b) + t
    ensures StartsWithPair(a) == StartsWithPair(b) && s == t
    ensures if StartsWithPair(a) then a[..2] == b[..2] else a[0] == b[0]
  {
    FirstPieceUnit(a);
    FirstPieceUnit(b);
    assert FirstPiece(a)[0] == (FirstPiece(a) + s)[0] == (FirstPiece(b) + t)[0] == FirstPiece(b)[0];
    if StartsWithPair(a) {
      SplitAt(a[..2], s, b[..2], t);
    } else {
      EscapeUnitPrefix(a[0], b[0], s, t);
    }
  }

  /** Only the empty body begins with its closing quote. */
  lemma BodyEnd(a: Text, s: Text)
    ensures (QuoteBody(a) + ([QUOTE] + s))[0] == QUOTE <==> a == []
  {
    if a != [] {
      FirstPieceUnit(a);
      assert QuoteBody(a)[0] == FirstPiece(a)[0];
    }
  }

  lemma {:induction false} QuoteBodyPrefix(a: Text, b: Text, s: Text, t: Text)
    requires QuoteBody(a) + ([QUOTE] + s) == QuoteBody(b) + ([QUOTE] + t)
    ensures a == b && s == t
    decreases |a| + |b|
  {
    BodyEnd(a, s);
    BodyEnd(b, t);
    if a == [] {
      SplitAt([], [QUOTE] + s, [], [QUOTE] + t);
      SplitAt([QUOTE], s, [QUOTE], t);
    } else {
      var x, y := QuoteBody(AfterPiece(a)) + ([QUOTE] + s), QuoteBody(AfterPiece(b)) + ([QUOTE] + t);
      BodySplit(a, [QUOTE] + s);
      BodySplit(b, [QUOTE] + t);
      FirstPiecePrefix(a, b, x, y);
      QuoteBodyPrefix(AfterPiece(a), AfterPiece(b), s, t);
      SameFirstPiece(a, b);
    }
  }

  lemma BodySplit(a: Text, s: Text)
    requires a != []
    ensures QuoteBody(a) + s == FirstPiece(a) + (QuoteBody(AfterPiece(a)) + s)
  {}

  lemma SameFirstPiece(a: Text, b: Text)
    requires a != [] && b != [] && StartsWithPair(a) == StartsWithPair(b)
    requires if StartsWithPair(a) then a[..2] == b[..2] else a[0] == b[0]
    requires AfterPiece(a) == AfterPiece(b)
    ensures a == b
  {
    var k := if StartsWithPair(a) then 2 else 1;
    assert a == a[..k] + AfterPiece(a) && b == b[..k] + AfterPiece(b);
  }

  /** A quoted string says where it ends. */
  lemma QuotePrefix(a: Text, b: Text, s: Text, t: Text)
    requires Quote(a) + s == Quote(b) + t
    ensures a == b && s == t
  {
    hide QuoteBody;
    assert Quote(a) + s == [QUOTE] + (QuoteBody(a) + ([QUOTE] + s));
    assert Quote(b) + t == [QUOTE] + (QuoteBody(b) + ([QUOTE] + t));
    SplitAt([QUOTE], QuoteBody(a) + ([QUOTE] + s), [QUOTE], QuoteBody(b) + ([QUOTE] + t));
    QuoteBodyPrefix(a, b, s, t);
  }

  /** A delimiter ends a number. */
  lemma NumberTextNotLonger(a: NumberText, b: NumberText, s: Text, t: Text)
    requires Delimited(s) && a + s == b + t
    ensures |b| <= |a|
  {
    assert forall i :: 0 <= i < |b| ==> NumberUnit((b + t)[i]);
    assert s != [] ==> !NumberUnit((a + s)[|a|]);
  }

  lemma NumberTextPrefix(a: NumberText, b: NumberText, s: Text, t: Text)
    requires Delimited(s) && Delimited(t) && a + s == b + t
    ensures a == b && s == t
  {
    NumberTextNotLonger(a, b, s, t);
    NumberTextNotLonger(b, a, t, s);
    SplitAt(a, s, b, t);
  }

  /** The first code unit tells which kind of value follows. */
  function Kind(v: Value): int {
    if PrintsNull(v) then 0 else if v == Bool(false) then 1 else if v == Bool(true) then 2
    else if v.Number? then 3 else if v.Str? then 4 else if v.Arr? then 5 else 6
  }

  function KindOfUnit(c: CodeUnit): int {
    if c == 0x6E then 0 else if c == 0x66 then 1 else if c == 0x74 then 2
    else if c == QUOTE then 4 else if c == OPEN_BRACKET then 5 else if c == OPEN_BRACE then 6 else 3
  }

  lemma FirstUnit(v: Value, s: Text)
    ensures |Canonicalize(v)| > 0 && KindOfUnit((Canonicalize(v) + s)[0]) == Kind(v)
    ensures (Canonicalize(v) + s)[0] != CLOSE_BRACKET
  {}

  lemma {:induction false} CanonicalPrefix(v: Value, w: Value, s: Text, t: Text)
    requires Delimited(s) && Delimited(t)
    requires Canonicalize(v) + s == Canonicalize(w) + t
    ensures Alike(v, w) && s == t
    decreases v, 1
  {
    FirstUnit(v, s);
    FirstUnit(w, t);
    assert Kind(v) == Kind(w);
    if v.Number? && v.n.Finite? {
      NumberTextPrefix(v.n.text, w.n.text, s, t);
    } else if v.Str? {
      QuotePrefix(v.s, w.s, s, t);
    } else if v.Arr? {
      ArrayText(v, s);
      ArrayText(w, t);
      SplitAt([OPEN_BRACKET], JoinItems(v.items) + ([CLOSE_BRACKET] + s), [OPEN_BRACKET], JoinItems(w.items) + ([CLOSE_BRACKET] + t));
      ItemsPrefix(v.items, w.items, s, t);
    } else if v.Obj? {
      ObjectText(v, s);
      ObjectText(w, t);
      var ms, ns := SortedMembers(v.members), SortedMembers(w.members);
      SplitAt([OPEN_BRACE], JoinMembers(v, ms) + ([CLOSE_BRACE] + s), [OPEN_BRACE], JoinMembers(w, ns) + ([CLOSE_BRACE] + t));
      MembersPrefix(v, ms, w, ns, s, t);
      PointwiseAlike(v, ms, w, ns);
    } else {
      SplitAt(Canonicalize(v), s, Canonicalize(w), t);
    }
  }

  lemma ArrayText(v: Value, s: Text)
    requires v.Arr?
    ensures Canonicalize(v) + s == [OPEN_BRACKET] + (JoinItems(v.items) + ([CLOSE_BRACKET] + s))
  {}

  lemma ObjectText(v: Value, s: Text)
    requires v.Obj?
    ensures Canonicalize(v) + s == [OPEN_BRACE] + (JoinMembers(v, SortedMembers(v.members)) + ([CLOSE_BRACE] + s))
  {}

  /** The text after the first item of a nonempty list. */
  function ItemsTail(items: seq<Value>, s: Text): Text
    requires items != []
  {
    if |items| == 1 then [CLOSE_BRACKET] + s
    else [COMMA] + (JoinItems(items[1..]) + ([CLOSE_BRACKET] + s))
  }

  lemma ItemsText(items: seq<Value>, s: Text)
    requires items != []
    ensures JoinItems(items) + ([CLOSE_BRACKET] + s) == Canonicalize(items[0]) + ItemsTail(items, s)
  {}

  lemma {:induction false} ItemsPrefix(a: seq<Value>, b: seq<Value>, s: Text, t: Text)
    requires JoinItems(a) + ([CLOSE_BRACKET] + s) == JoinItems(b) + ([CLOSE_BRACKET] + t)
    ensures |a| == |b| && s == t
    ensures forall i :: 0 <= i < |a| ==> Alike(a[i], b[i])
    decreases a, 0
  {
    if a != [] { ItemsText(a, s); FirstUnit(a[0], ItemsTail(a, s)); }
    if b != [] { ItemsText(b, t); FirstUnit(b[0], ItemsTail(b, t)); }
    if a == [] || b == [] {
      assert (JoinItems(a) + ([CLOSE_BRACKET] + s))[0] == (JoinItems(b) + ([CLOSE_BRACKET] + t))[0];
      SplitAt([], [CLOSE_BRACKET] + s, [], [CLOSE_BRACKET] + t);
      SplitAt([CLOSE_BRACKET], s, [CLOSE_BRACKET], t);
    } else {
      CanonicalPrefix(a[0], b[0], ItemsTail(a, s), ItemsTail(b, t));
      assert ItemsTail(a, s)[0] == ItemsTail(b, t)[0];
      if |a| == 1 {
        SplitAt([CLOSE_BRACKET], s, [CLOSE_BRACKET], t);
      } else {
        SplitAt([COMMA], JoinItems(a[1..]) + ([CLOSE_BRACKET] + s), [COMMA], JoinItems(b[1..]) + ([CLOSE_BRACKET] + t));
        ItemsPrefix(a[1..], b[1..], s, t);
      }
      forall i | 0 <= i < |a| ensures Alike(a[i], b[i]) {
        if i > 0 { assert a[i] == a[1..][i - 1] && b[i] == b[1..][i - 1]; }
      }
    }
  }

  function MembersTail(v: Value, ms: seq<Member>, s: Text): Text
    requires v.Obj? && ms != [] && forall m :: m in ms ==> m in v.members
  {
    if |ms| == 1 then [CLOSE_BRACE] + s
    else [COMMA] + (JoinMembers(v, ms[1..]) + ([CLOSE_BRACE] + s))
  }

  lemma MembersText(v: Value, ms: seq<Member>, s: Text)
    requires v.Obj? && ms != [] && forall m :: m in ms ==> m in v.members
    ensures JoinMembers(v, ms) + ([CLOSE_BRACE] + s)
         == Quote(ms[0].key) + ([COLON] + (Canonicalize(ms[0].value) + MembersTail(v, ms, s)))
  {}

  lemma {:induction false} MembersPrefix(v: Value, a: seq<Member>, w: Value, b: seq<Member>, s: Text, t: Text)
    requires v.Obj? && forall m :: m in a ==> m in v.members
    requires w.Obj? && forall m :: m in b ==> m in w.members
    requires JoinMembers(v, a) + ([CLOSE_BRACE] + s) == JoinMembers(w, b) + ([CLOSE_BRACE] + t)
    ensures |a| == |b| && s == t
    ensures forall i :: 0 <= i < |a| ==> a[i].key == b[i].key && Alike(a[i].value, b[i].value)
    decreases v, 0, |a|
  {
    if a != [] { MembersText(v, a, s); }
    if b != [] { MembersText(w, b, t); }
    if a == [] || b == [] {
      assert (JoinMembers(v, a) + ([CLOSE_BRACE] + s))[0] == (JoinMembers(w, b) + ([CLOSE_BRACE] + t))[0];
      SplitAt([], [CLOSE_BRACE] + s, [], [CLOSE_BRACE] + t);
      SplitAt([CLOSE_BRACE], s, [CLOSE_BRACE], t);
    } else {
      assert a[0] in v.members;
      var x, y := Canonicalize(a[0].value) + MembersTail(v, a, s), Canonicalize(b[0].value) + MembersTail(w, b, t);
      QuotePrefix(a[0].key, b[0].key, [COLON] + x, [COLON] + y);
      SplitAt([COLON], x, [COLON], y);
      CanonicalPrefix(a[0].value, b[0].value, MembersTail(v, a, s), MembersTail(w, b, t));
      MembersTailPrefix(v, a, w, b, s, t);
      if |a| > 1 {
        MembersPrefix(v, a[1..], w, b[1..], s, t);
      }
      forall i | 0 <= i < |a| ensures a[i].key == b[i].key && Alike(a[i].value, b[i].value) {
        if i > 0 { assert a[i] == a[1..][i - 1] && b[i] == b[1..][i - 1]; }
      }
    }
  }

  lemma MembersTailPrefix(v: Value, a: seq<Member>, w: Value, b: seq<Member>, s: Text, t: Text)
    requires v.Obj? && a != [] && forall m :: m in a ==> m in v.members
    requires w.Obj? && b != [] && forall m :: m in b ==> m in w.members
    requires MembersTail(v, a, s) == MembersTail(w, b, t)
    ensures |a| == 1 <==> |b| == 1
    ensures |a| == 1 ==> s == t
    ensures |a| > 1 ==> JoinMembers(v, a[1..]) + ([CLOSE_BRACE] + s) == JoinMembers(w, b[1..]) + ([CLOSE_BRACE] + t)
  {
    assert MembersTail(v, a, s)[0] == MembersTail(w, b, t)[0];
    if |a| == 1 {
      SplitAt([CLOSE_BRACE], s, [CLOSE_BRACE], t);
    } else {
      SplitAt([COMMA], JoinMembers(v, a[1..]) + ([CLOSE_BRACE] + s), [COMMA], JoinMembers(w, b[1..]) + ([CLOSE_BRACE] + t));
    }
  }

  lemma PointwiseAlike(v: Value, ms: seq<Member>, w: Value, ns: seq<Member>)
    requires v.Obj? && w.Obj?
    requires forall m :: m in ms <==> m in v.members
    requires forall n :: n in ns <==> n in w.members
    requires |ms| == |ns|
    requires forall i :: 0 <= i < |ms| ==> ms[i].key == ns[i].key && Alike(ms[i].value, ns[i].value)
    ensures Alike(v, w)
  {
    forall m | m in v.members ensures HasAlikeIn(m, w.members) {
      assert m in ms;
      var i :| 0 <= i < |ms| && ms[i] == m;
      assert ns[i] in w.members;
    }
    forall n | n in w.members ensures exists m :: m in v.members && m.key == n.key {
      assert n in ns;
      var i :| 0 <= i < |ns| && ns[i] == n;
      assert ms[i] in v.members;
    }
  }

  // ----- Alike values print alike -----

  function Keys(ms: seq<Member>): (r: seq<Text>)
    ensures |r| == |ms| && forall i :: 0 <= i < |ms| ==> r[i] == ms[i].key
  {
    seq(|ms|, i requires 0 <= i < |ms| => ms[i].key)
  }

  ghost predicate StrictlyAscending(ks: seq<Text>) {
    forall i, j :: 0 <= i < j < |ks| ==> TextLe(ks[i], ks[j]) && ks[i] != ks[j]
  }

  /** A set of keys has one ascending list. */
  lemma {:induction false} AscendingKeysAgree(a: seq<Text>, b: seq<Text>)
    requires StrictlyAscending(a) && StrictlyAscending(b)
    requires forall k :: k in a <==> k in b
    ensures a == b
  {
    assert b == [] || b[0] in b;
    if a != [] {
      assert a[0] in b && b[0] in a;
      FirstIsLeast(a, b[0]);
      FirstIsLeast(b, a[0]);
      TextLeTotal(a[0], b[0]);
      forall k ensures k in a[1..] <==> k in b[1..] {
        TailMembership(a, k);
        TailMembership(b, k);
      }
      AscendingKeysAgree(a[1..], b[1..]);
      assert a == [a[0]] + a[1..] && b == [b[0]] + b[1..];
    }
  }

  lemma FirstIsLeast(a: seq<Text>, k: Text)
    requires StrictlyAscending(a) && k in a
    ensures TextLe(a[0], k)
  {
    TextLeTotal(k, k);
  }

  lemma TailMembership(a: seq<Text>, k: Text)
    requires StrictlyAscending(a) && a != []
    ensures k in a[1..] <==> k in a && k != a[0]
  {}

  ghost predicate DistinctKeyList(ms: seq<Member>) {
    forall i, j :: 0 <= i < j < |ms| ==> ms[i].key != ms[j].key
  }

  ghost predicate KeysWithin(ms: seq<Member>, ns: seq<Member>) {
    forall m :: m in ms ==> exists n :: n in ns && n.key == m.key
  }

  lemma KeyMembership(ms: seq<Member>, k: Text)
    ensures k in Keys(SortedMembers(ms)) <==> exists m :: m in ms && m.key == k
  {
    var a := SortedMembers(ms);
    if k in Keys(a) {
      var i :| 0 <= i < |a| && Keys(a)[i] == k;
      assert a[i] in ms;
    }
    if m :| m in ms && m.key == k {
      assert m in a;
      var i :| 0 <= i < |a| && a[i] == m;
      assert Keys(a)[i] == k;
    }
  }

  lemma SortedKeysAgree(ms: seq<Member>, ns: seq<Member>)
    requires DistinctKeyList(ms) && DistinctKeyList(ns)
    requires KeysWithin(ms, ns) && KeysWithin(ns, ms)
    ensures Keys(SortedMembers(ms)) == Keys(SortedMembers(ns))
  {
    SortedMembersAscend(ms);
    SortedMembersAscend(ns);
    forall k ensures k in Keys(SortedMembers(ms)) <==> k in Keys(SortedMembers(ns)) {
      KeyMembership(ms, k);
      KeyMembership(ns, k);
    }
    AscendingKeysAgree(Keys(SortedMembers(ms)), Keys(SortedMembers(ns)));
  }

  lemma AlikeObjects(v: Value, w: Value)
    requires DistinctKeys(v) && DistinctKeys(w) && Alike(v, w) && v.Obj?
    ensures w.Obj? && DistinctKeyList(v.members) && DistinctKeyList(w.members)
    ensures KeysWithin(v.members, w.members) && KeysWithin(w.members, v.members)
  {
    forall m | m in v.members ensures exists n :: n in w.members && n.key == m.key {
      assert HasAlikeIn(m, w.members);
    }
  }

  lemma SameKeySameMember(ms: seq<Member>, m: Member, n: Member)
    requires DistinctKeyList(ms) && m in ms && n in ms && m.key == n.key
    ensures m == n
  {}

  lemma AlikeMember(ns: seq<Member>, m: Member, n: Member)
    requires HasAlikeIn(m, ns) && DistinctKeyList(ns)
    requires n in ns && m.key == n.key
    ensures Alike(m.value, n.value)
  {
    var k :| k in ns && k.key == m.key && Alike(m.value, k.value);
    SameKeySameMember(ns, k, n);
  }

  lemma DistinctKeysBelow(v: Value, m: Member)
    requires DistinctKeys(v) && v.Obj? && m in v.members
    ensures DistinctKeys(m.value)
  {}

  lemma {:induction false} AlikePrintsAlike(v: Value, w: Value)
    requires DistinctKeys(v) && DistinctKeys(w) && Alike(v, w)
    ensures Canonicalize(v) == Canonicalize(w)
    decreases v, 2
  {
    if v.Arr? {
      AlikeItems(v.items, w.items);
    } else if v.Obj? {
      AlikeObjectsPrintAlike(v, w);
    }
  }

  /** Sorting brings the members with equal keys to the same place. */
  lemma AlikePlaces(ms: seq<Member>, ns: seq<Member>, i: nat)
    requires DistinctKeyList(ms) && DistinctKeyList(ns)
    requires Keys(SortedMembers(ms)) == Keys(SortedMembers(ns)) && i < |ms|
    requires forall m :: m in ms ==> HasAlikeIn(m, ns)
    ensures |ms| == |ns|
    ensures var m, n := SortedMembers(ms)[i], SortedMembers(ns)[i];
      m in ms && n in ns && m.key == n.key && Alike(m.value, n.value)
  {
    var a, b := SortedMembers(ms), SortedMembers(ns);
    assert |Keys(a)| == |Keys(b)| && Keys(a)[i] == Keys(b)[i];
    assert a[i] in ms && b[i] in ns;
    AlikeMember(ns, a[i], b[i]);
  }

  lemma {:induction false} AlikeObjectsPrintAlike(v: Value, w: Value)
    requires DistinctKeys(v) && DistinctKeys(w) && Alike(v, w) && v.Obj?
    ensures Canonicalize(v) == Canonicalize(w)
    decreases v, 1
  {
    AlikeObjects(v, w);
    var ms, ns := v.members, w.members;
    SortedKeysAgree(ms, ns);
    var a, b := SortedMembers(ms), SortedMembers(ns);
    assert |Keys(a)| == |Keys(b)|;
    forall i | 0 <= i < |a|
      ensures a[i].key == b[i].key && Alike(a[i].value, b[i].value)
      ensures DistinctKeys(a[i].value) && DistinctKeys(b[i].value)
    {
      AlikePlaces(ms, ns, i);
      DistinctKeysBelow(v, a[i]);
      DistinctKeysBelow(w, b[i]);
    }
    AlikeMembers(v, a, w, b);
  }

  lemma {:induction false} AlikeItems(a: seq<Value>, b: seq<Value>)
    requires |a| == |b|
    requires forall i :: 0 <= i < |a| ==> DistinctKeys(a[i]) && DistinctKeys(b[i]) && Alike(a[i], b[i])
    ensures JoinItems(a) == JoinItems(b)
    decreases a, 0
  {
    if a != [] {
      AlikePrintsAlike(a[0], b[0]);
      AlikeItems(a[1..], b[1..]);
    }
  }

  lemma {:induction false} AlikeMembers(v: Value, a: seq<Member>, w: Value, b: seq<Member>)
    requires v.Obj? && forall m :: m in a ==> m in v.members
    requires w.Obj? && forall m :: m in b ==> m in w.members
    requires |a| == |b|
    requires forall i :: 0 <= i < |a| ==> a[i].key == b[i].key && Alike(a[i].value, b[i].value)
    requires forall i :: 0 <= i < |a| ==> DistinctKeys(a[i].value) && DistinctKeys(b[i].value)
    ensures JoinMembers(v, a) == JoinMembers(w, b)
    decreases v, 0, |a|
  {
    if a != [] {
      assert a[0] in v.members;
      AlikePrintsAlike(a[0].value, b[0].value);
      AlikeMembers(v, a[1..], w, b[1..]);
    }
  }

  /** The canonical text identifies a value up to the order of its members, and nothing else,
      except that a number beyond the double range counts as null. */
  lemma CanonicalTextIdentifies(v: Value, w: Value)
    requires DistinctKeys(v) && DistinctKeys(w)
    ensures Canonicalize(v) == Canonicalize(w) <==> Alike(v, w)
  {
    if Canonicalize(v) == Canonicalize(w) {
      CanonicalPrefix(v, w, [], []);
    }
    if Alike(v, w) {
      AlikePrintsAlike(v, w);
    }
  }
}
