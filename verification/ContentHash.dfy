/** What `computeContentHash` feeds to SHA-256: the canonical text of the five dimensions, without
    the project's `devHead`. The digest itself is not part of this model. */
module ContentHash {
  import opened StableSort
  import opened Json
  import opened CanonicalText
  import JsonReader

  function Ascii(s: string): (t: Text)
    ensures |t| == |s|
  {
    seq(|s|, i requires 0 <= i < |s| => if s[i] as int < 128 then s[i] as CodeUnit else 0x3F)
  }

  const DEV_HEAD: Text := Ascii("devHead")
  const COMPANY: Text := Ascii("company")
  const MODEL: Text := Ascii("model")
  const KEYS: Text := Ascii("keys")
  const EMPLOYEES: Text := Ascii("employees")
  const PROJECT: Text := Ascii("project")

  datatype Dims = Dims(company: Value, model: Value, keys: Value, employees: Value, project: Value)

  /** `projectDimForHash` */
  function WithoutDevHead(project: Value): Value {
    if project.Obj? then Obj(Filter(project.members, (m: Member) => m.key != DEV_HEAD)) else project
  }

  function HashedValue(d: Dims): Value {
    Obj([Member(COMPANY, d.company), Member(MODEL, d.model), Member(KEYS, d.keys),
         Member(EMPLOYEES, d.employees), Member(PROJECT, WithoutDevHead(d.project))])
  }

  function HashInput(d: Dims): Text { Canonicalize(HashedValue(d)) }

  ghost predicate Parsed(d: Dims) {
    && DistinctKeys(d.company) && DistinctKeys(d.model) && DistinctKeys(d.keys)
    && DistinctKeys(d.employees) && DistinctKeys(d.project)
  }

  /** Equal up to member order and up to the presence and value of a top-level `devHead`. */
  ghost predicate AlikeExceptDevHead(p: Value, q: Value) {
    if !p.Obj? || !q.Obj? then Alike(p, q)
    else
      && (forall m :: m in p.members && m.key != DEV_HEAD ==> HasAlikeIn(m, q.members))
      && (forall n :: n in q.members && n.key != DEV_HEAD ==> exists m :: m in p.members && m.key == n.key)
  }

  lemma FilterKeepsDistinct(ms: seq<Member>, p: Member -> bool)
    requires DistinctKeyList(ms)
    ensures DistinctKeyList(Filter(ms, p))
  {
    if ms != [] {
      var front, last := ms[..|ms| - 1], ms[|ms| - 1];
      FilterKeepsDistinct(front, p);
      forall m | m in Filter(front, p) ensures m.key != last.key {}
    }
  }

  lemma WithoutDevHeadParsed(p: Value)
    requires DistinctKeys(p)
    ensures DistinctKeys(WithoutDevHead(p))
  {
    if p.Obj? {
      assert DistinctKeyList(p.members);
      var ms := WithoutDevHead(p).members;
      FilterKeepsDistinct(p.members, (m: Member) => m.key != DEV_HEAD);
      forall i | 0 <= i < |ms| ensures DistinctKeys(ms[i].value) {
        DistinctKeysBelow(p, ms[i]);
      }
    }
  }

  lemma HasAlikeInFiltered(m: Member, q: Value)
    requires q.Obj? && m.key != DEV_HEAD
    ensures HasAlikeIn(m, WithoutDevHead(q).members) <==> HasAlikeIn(m, q.members)
  {
    if HasAlikeIn(m, q.members) {
      var n :| n in q.members && n.key == m.key && Alike(m.value, n.value);
      assert n in WithoutDevHead(q).members;
    }
  }

  lemma KeysWithinFiltered(p: Value, q: Value)
    requires p.Obj? && q.Obj?
    ensures KeysWithin(WithoutDevHead(q).members, WithoutDevHead(p).members) <==>
      forall n :: n in q.members && n.key != DEV_HEAD ==> exists m :: m in p.members && m.key == n.key
  {
    var ms, ns := WithoutDevHead(p).members, WithoutDevHead(q).members;
    if forall n :: n in q.members && n.key != DEV_HEAD ==> exists m :: m in p.members && m.key == n.key {
      forall n | n in ns ensures exists m :: m in ms && m.key == n.key {
        var m :| m in p.members && m.key == n.key;
        assert m in ms;
      }
    }
    if KeysWithin(ns, ms) {
      forall n | n in q.members && n.key != DEV_HEAD ensures exists m :: m in p.members && m.key == n.key {
        assert n in ns;
        var m :| m in ms && m.key == n.key;
      }
    }
  }

  lemma MembersAlikeFiltered(p: Value, q: Value)
    requires p.Obj? && q.Obj?
    ensures (forall m :: m in WithoutDevHead(p).members ==> HasAlikeIn(m, WithoutDevHead(q).members)) <==>
      forall m :: m in p.members && m.key != DEV_HEAD ==> HasAlikeIn(m, q.members)
  {
    forall m: Member | m.key != DEV_HEAD
      ensures HasAlikeIn(m, WithoutDevHead(q).members) <==> HasAlikeIn(m, q.members)
    {
      HasAlikeInFiltered(m, q);
    }
    assert forall m :: m in WithoutDevHead(p).members <==> m in p.members && m.key != DEV_HEAD;
  }

  lemma AlikeObjectParts(v: Value, w: Value)
    requires v.Obj? && w.Obj?
    ensures Alike(v, w) <==> (forall m :: m in v.members ==> HasAlikeIn(m, w.members)) && KeysWithin(w.members, v.members)
  {}

  lemma AlikeSameKind(v: Value, w: Value)
    requires v.Obj? != w.Obj?
    ensures !Alike(v, w)
  {}

  lemma WithoutDevHeadAlike(p: Value, q: Value)
    ensures Alike(WithoutDevHead(p), WithoutDevHead(q)) <==> AlikeExceptDevHead(p, q)
  {
    if p.Obj? && q.Obj? {
      MembersAlikeFiltered(p, q);
      KeysWithinFiltered(p, q);
      AlikeObjectParts(WithoutDevHead(p), WithoutDevHead(q));
    } else if p.Obj? || q.Obj? {
      AlikeSameKind(p, q);
      AlikeSameKind(WithoutDevHead(p), WithoutDevHead(q));
    }
  }

  lemma DimensionNamesDiffer()
    ensures DistinctKeyList([Member(COMPANY, Null), Member(MODEL, Null), Member(KEYS, Null),
                             Member(EMPLOYEES, Null), Member(PROJECT, Null)])
  {
    assert COMPANY[0] == 0x63 && PROJECT[0] == 0x70;
    var ms := [Member(COMPANY, Null), Member(MODEL, Null), Member(KEYS, Null),
               Member(EMPLOYEES, Null), Member(PROJECT, Null)];
    assert forall i, j :: 0 <= i < j < 5 && (i != 0 || j != 4) ==> |ms[i].key| != |ms[j].key|;
  }

  lemma HashedValueParsed(d: Dims)
    requires Parsed(d)
    ensures DistinctKeys(HashedValue(d))
    ensures DistinctKeyList(HashedValue(d).members)
  {
    DimensionNamesDiffer();
    WithoutDevHeadParsed(d.project);
    var ms := HashedValue(d).members;
    var ns := [Member(COMPANY, Null), Member(MODEL, Null), Member(KEYS, Null),
               Member(EMPLOYEES, Null), Member(PROJECT, Null)];
    assert forall i :: 0 <= i < 5 ==> ms[i].key == ns[i].key;
  }

  lemma HashedValueAlike(d: Dims, e: Dims)
    requires Parsed(d) && Parsed(e)
    ensures Alike(HashedValue(d), HashedValue(e)) <==>
      forall i :: 0 <= i < 5 ==> Alike(HashedValue(d).members[i].value, HashedValue(e).members[i].value)
  {
    HashedValueParsed(e);
    var v, w := HashedValue(d), HashedValue(e);
    assert forall i :: 0 <= i < 5 ==> v.members[i].key == w.members[i].key;
    if Alike(v, w) {
      forall i | 0 <= i < 5 ensures Alike(v.members[i].value, w.members[i].value) {
        AlikeMember(w.members, v.members[i], w.members[i]);
      }
    }
    if forall i :: 0 <= i < 5 ==> Alike(v.members[i].value, w.members[i].value) {
      PointwiseAlike(v, v.members, w, w.members);
    }
  }

  /** Two bundles get one hash input exactly when their five dimensions agree up to member order
      and `devHead`: the meta fields and the self-referring head commit never matter. */
  lemma HashInputIdentifies(d: Dims, e: Dims)
    requires Parsed(d) && Parsed(e)
    ensures HashInput(d) == HashInput(e) <==>
      && Alike(d.company, e.company) && Alike(d.model, e.model) && Alike(d.keys, e.keys)
      && Alike(d.employees, e.employees) && AlikeExceptDevHead(d.project, e.project)
  {
    hide Alike, AlikeExceptDevHead, Canonicalize, DistinctKeys, WithoutDevHead;
    HashedValueParsed(d);
    HashedValueParsed(e);
    CanonicalTextIdentifies(HashedValue(d), HashedValue(e));
    HashedValueAlike(d, e);
    WithoutDevHeadAlike(d.project, e.project);
    var ms, ns := HashedValue(d).members, HashedValue(e).members;
    assert (forall i :: 0 <= i < 5 ==> Alike(ms[i].value, ns[i].value)) <==>
      && Alike(ms[0].value, ns[0].value) && Alike(ms[1].value, ns[1].value) && Alike(ms[2].value, ns[2].value)
      && Alike(ms[3].value, ns[3].value) && Alike(ms[4].value, ns[4].value);
  }

  /** `1e999` parses to an infinity and prints as `null`: the text does not tell them apart. */
  lemma OverflowPrintsAsNull(negative: bool)
    ensures DistinctKeys(Number(Infinite(negative))) && DistinctKeys(Null)
    ensures Number(Infinite(negative)) != Null
    ensures Canonicalize(Number(Infinite(negative))) == Canonicalize(Null)
  {}

  // ----- The hashed text has a UTF-8 encoding -----

  ghost predicate NoLoneSurrogates(t: Text) {
    t == []
    || (StartsWithPair(t) && NoLoneSurrogates(t[2..]))
    || (!HighSurrogate(t[0]) && !LowSurrogate(t[0]) && NoLoneSurrogates(t[1..]))
  }

  lemma {:induction false} NoLoneConcat(s: Text, t: Text)
    requires NoLoneSurrogates(s) && NoLoneSurrogates(t)
    ensures NoLoneSurrogates(s + t)
  {
    if s == [] {
      assert s + t == t;
    } else {
      var k := if StartsWithPair(s) then 2 else 1;
      NoLoneConcat(s[k..], t);
      assert (s + t)[k..] == s[k..] + t;
    }
  }

  lemma {:induction false} PlainText(t: Text)
    requires forall i :: 0 <= i < |t| ==> !HighSurrogate(t[i]) && !LowSurrogate(t[i])
    ensures NoLoneSurrogates(t)
  {
    if t != [] { PlainText(t[1..]); }
  }

  lemma {:induction false} QuoteBodyNoLone(s: Text)
    ensures NoLoneSurrogates(QuoteBody(s))
  {
    if s != [] {
      QuoteBodyNoLone(AfterPiece(s));
      if StartsWithPair(s) {
        assert s[..2][2..] == [];
        assert NoLoneSurrogates(s[..2]);
      } else {
        PlainText(EscapeUnit(s[0]));
      }
      NoLoneConcat(FirstPiece(s), QuoteBody(AfterPiece(s)));
    }
  }

  lemma QuoteNoLone(s: Text)
    ensures NoLoneSurrogates(Quote(s))
  {
    QuoteBodyNoLone(s);
    PlainText([QUOTE]);
    NoLoneConcat([QUOTE], QuoteBody(s));
    NoLoneConcat([QUOTE] + QuoteBody(s), [QUOTE]);
  }

  /** A lone surrogate inside a string is printed as an escape, so encoding the canonical text as
      UTF-8 replaces nothing and no two texts meet there. */
  lemma {:induction false} CanonicalTextHasUtf8(v: Value)
    ensures NoLoneSurrogates(Canonicalize(v))
    decreases v, 1
  {
    match v
    case Str(s) => QuoteNoLone(s);
    case Arr(items) =>
      ItemsNoLone(items);
      PlainText([OPEN_BRACKET]);
      PlainText([CLOSE_BRACKET]);
      NoLoneConcat([OPEN_BRACKET], JoinItems(items));
      NoLoneConcat([OPEN_BRACKET] + JoinItems(items), [CLOSE_BRACKET]);
    case Obj(ms) =>
      var sorted := SortedMembers(ms);
      MembersNoLone(v, sorted);
      PlainText([OPEN_BRACE]);
      PlainText([CLOSE_BRACE]);
      NoLoneConcat([OPEN_BRACE], JoinMembers(v, sorted));
      NoLoneConcat([OPEN_BRACE] + JoinMembers(v, sorted), [CLOSE_BRACE]);
    case _ => PlainText(Canonicalize(v));
  }

  lemma {:induction false} ItemsNoLone(items: seq<Value>)
    ensures NoLoneSurrogates(JoinItems(items))
    decreases items, 0
  {
    if items != [] {
      CanonicalTextHasUtf8(items[0]);
      ItemsNoLone(items[1..]);
      PlainText([COMMA]);
      NoLoneConcat([COMMA], JoinItems(items[1..]));
      NoLoneConcat(Canonicalize(items[0]), if |items| == 1 then [] else [COMMA] + JoinItems(items[1..]));
    }
  }

  lemma {:induction false} MembersNoLone(v: Value, ms: seq<Member>)
    requires v.Obj? && forall m :: m in ms ==> m in v.members
    ensures NoLoneSurrogates(JoinMembers(v, ms))
    decreases v, 0, |ms|
  {
    if ms != [] {
      assert ms[0] in v.members;
      CanonicalTextHasUtf8(ms[0].value);
      MembersNoLone(v, ms[1..]);
      QuoteNoLone(ms[0].key);
      PlainText([COLON]);
      PlainText([COMMA]);
      var head := Quote(ms[0].key) + [COLON];
      NoLoneConcat(Quote(ms[0].key), [COLON]);
      NoLoneConcat(head, Canonicalize(ms[0].value));
      NoLoneConcat([COMMA], JoinMembers(v, ms[1..]));
      NoLoneConcat(head + Canonicalize(ms[0].value), if |ms| == 1 then [] else [COMMA] + JoinMembers(v, ms[1..]));
    }
  }

  // ----- What the hashed text says -----

  /** The names of the dimensions and of the member left out, in code units. */
  lemma DimensionNames()
    ensures COMPANY == [0x63, 0x6F, 0x6D, 0x70, 0x61, 0x6E, 0x79]
    ensures MODEL == [0x6D, 0x6F, 0x64, 0x65, 0x6C]
    ensures KEYS == [0x6B, 0x65, 0x79, 0x73]
    ensures EMPLOYEES == [0x65, 0x6D, 0x70, 0x6C, 0x6F, 0x79, 0x65, 0x65, 0x73]
    ensures PROJECT == [0x70, 0x72, 0x6F, 0x6A, 0x65, 0x63, 0x74]
    ensures DEV_HEAD == [0x64, 0x65, 0x76, 0x48, 0x65, 0x61, 0x64]
  {}

  lemma MembersFound(ms: seq<Member>, w: Value)
    requires Alike(Obj(ms), w)
    ensures w.Obj? && forall i :: 0 <= i < |ms| ==> HasAlikeIn(ms[i], w.members)
    ensures forall n :: n in w.members ==> exists i :: 0 <= i < |ms| && ms[i].key == n.key
  {
    AlikeObjectParts(Obj(ms), w);
    hide Alike, HasAlikeIn;
  }

  /** The hashed text is JSON for an object of the five dimensions under their names. */
  lemma HashInputReads(d: Dims)
    ensures var r := JsonReader.ReadText(HashInput(d));
      && r.Some? && r.value.Obj?
      && HasAlikeIn(Member(COMPANY, d.company), r.value.members)
      && HasAlikeIn(Member(MODEL, d.model), r.value.members)
      && HasAlikeIn(Member(KEYS, d.keys), r.value.members)
      && HasAlikeIn(Member(EMPLOYEES, d.employees), r.value.members)
      && HasAlikeIn(Member(PROJECT, WithoutDevHead(d.project)), r.value.members)
      && forall m :: m in r.value.members ==> m.key in {COMPANY, MODEL, KEYS, EMPLOYEES, PROJECT}
  {
    hide Canonicalize, JsonReader.ReadText, HasAlikeIn, WithoutDevHead, Alike, Ascii;
    JsonReader.CanonicalTextReads(HashedValue(d));
    var ms, w := HashedValue(d).members, JsonReader.ReadText(HashInput(d)).value;
    MembersFound(ms, w);
    assert HasAlikeIn(ms[0], w.members) && HasAlikeIn(ms[1], w.members) && HasAlikeIn(ms[2], w.members);
    assert HasAlikeIn(ms[3], w.members) && HasAlikeIn(ms[4], w.members);
  }
}
