/** Validation of a received bundle: key material is refused at any depth, then the shape of each
    of the five dimensions is checked. Messages are left out; the kind of error is kept. */
module SyncBundle {
  import opened Json
  import opened ContentHash
  import opened Wrappers

  datatype DimKey = Company | Model | Keys | Employees | Project

  const DIM_KEYS: seq<DimKey> := [Company, Model, Keys, Employees, Project]

  function Dim(d: Dims, k: DimKey): Value {
    match k
    case Company => d.company
    case Model => d.model
    case Keys => d.keys
    case Employees => d.employees
    case Project => d.project
  }

  function DimName(k: DimKey): Text {
    match k
    case Company => COMPANY
    case Model => MODEL
    case Keys => KEYS
    case Employees => EMPLOYEES
    case Project => PROJECT
  }

  // ----- Fields of a parsed value -----

  function FindMember(ms: seq<Member>, key: Text): (r: Option<Value>)
    ensures r.Some? ==> Member(key, r.value) in ms
    ensures r.None? ==> forall m :: m in ms ==> m.key != key
  {
    if ms == [] then None
    else if ms[|ms| - 1].key == key then Some(ms[|ms| - 1].value)
    else FindMember(ms[..|ms| - 1], key)
  }

  function Field(v: Value, key: Text): Option<Value> {
    if v.Obj? then FindMember(v.members, key) else None
  }

  predicate IsStr(o: Option<Value>) { o.Some? && o.value.Str? && o.value.s != [] }

  /** The text of a string field; empty if there is none. */
  function TextOf(o: Option<Value>): Text {
    if o.Some? && o.value.Str? then o.value.s else []
  }

  function ItemsOf(o: Option<Value>): seq<Value> {
    if o.Some? && o.value.Arr? then o.value.items else []
  }

  predicate HasStrings(v: Value, names: seq<Text>) {
    v.Obj? && forall i :: 0 <= i < |names| ==> IsStr(Field(v, names[i]))
  }

  // ----- Key material -----

  const SECRET_NAMES: seq<Text> := [Ascii("api_key"), Ascii("apiKey"), Ascii("secret"), Ascii("token")]

  datatype Step = At(index: nat) | Under(key: Text)
  type Path = seq<Step>

  /** Following `path` leads to a non-empty string under a name for key material. */
  ghost predicate SecretAt(v: Value, path: Path)
    decreases path, 0
  {
    path != [] &&
    match path[0]
    case At(i) =>
      v.Arr? && i < |v.items| && SecretAt(v.items[i], path[1..])
    case Under(key) =>
      v.Obj? && exists m :: m in v.members && m.key == key && SecretUnder(m, path[1..])
  }

  ghost predicate SecretUnder(m: Member, rest: Path)
    decreases rest, 1
  {
    (rest == [] && m.key in SECRET_NAMES && m.value.Str? && m.value.s != []) || SecretAt(m.value, rest)
  }

  ghost predicate SecretFree(v: Value) {
    forall path: Path :: !SecretAt(v, path)
  }

  lemma SecretInMember(v: Value, m: Member, path: Path)
    requires v.Obj? && m in v.members && SecretUnder(m, path)
    ensures SecretAt(v, [Under(m.key)] + path)
  {
    assert ([Under(m.key)] + path)[1..] == path;
  }

  lemma NoSecretInItems(v: Value)
    requires v.Arr? && forall i :: 0 <= i < |v.items| ==> SecretFree(v.items[i])
    ensures SecretFree(v)
  {
    forall path: Path ensures !SecretAt(v, path) {
      if SecretAt(v, path) {
        assert path[0].At? && SecretFree(v.items[path[0].index]);
      }
    }
  }

  ghost predicate MemberFree(m: Member) { forall rest: Path :: !SecretUnder(m, rest) }

  lemma SecretIsInMember(v: Value, path: Path)
    requires v.Obj? && SecretAt(v, path)
    ensures exists m :: m in v.members && !MemberFree(m)
  {
    var m :| m in v.members && m.key == path[0].key && SecretUnder(m, path[1..]);
    assert !MemberFree(m);
  }

  lemma NoSecretInMembers(v: Value)
    requires v.Obj? && forall m :: m in v.members ==> MemberFree(m)
    ensures SecretFree(v)
  {
    hide MemberFree;
    forall path: Path ensures !SecretAt(v, path) {
      if SecretAt(v, path) { SecretIsInMember(v, path); }
    }
  }

  lemma MemberIsFree(m: Member)
    requires SecretFree(m.value)
    requires m.key in SECRET_NAMES && m.value.Str? ==> m.value.s == []
    ensures MemberFree(m)
  {}

  // ----- The order of the scan -----

  /** The numbers of the entries on the way to a value, outermost first. */
  type Place = seq<nat>

  /** At `place` there is key material, and `path` names the way to it. */
  predicate SecretPlace(v: Value, place: Place, path: Path)
    decreases place, 0
  {
    && place != [] && path != []
    && match v
       case Arr(items) => place[0] < |items| && path[0] == At(place[0]) && SecretPlace(items[place[0]], place[1..], path[1..])
       case Obj(members) =>
         place[0] < |members| && path[0] == Under(members[place[0]].key) && PlaceUnder(members[place[0]], place[1..], path[1..])
       case _ => false
  }

  predicate PlaceUnder(m: Member, rest: Place, path: Path)
    decreases rest, 1
  {
    (rest == [] && path == [] && m.key in SECRET_NAMES && m.value.Str? && m.value.s != []) || SecretPlace(m.value, rest, path)
  }

  /** Entries are visited in order, and a value before those in it. */
  predicate NotAfter(a: Place, b: Place) {
    a == [] || (b != [] && (a[0] < b[0] || (a[0] == b[0] && NotAfter(a[1..], b[1..]))))
  }

  ghost predicate FirstPlace(v: Value, place: Place, path: Path) {
    SecretPlace(v, place, path) && forall q, p :: SecretPlace(v, q, p) ==> NotAfter(place, q)
  }

  /** The path leads to the key material that is visited first. */
  ghost predicate FirstSecret(v: Value, path: Path) {
    exists place :: FirstPlace(v, place, path)
  }

  lemma {:induction false} PlaceIsSecret(v: Value, place: Place, path: Path)
    requires SecretPlace(v, place, path)
    ensures SecretAt(v, path)
    decreases place
  {
    if v.Arr? {
      PlaceIsSecret(v.items[place[0]], place[1..], path[1..]);
    } else {
      var m := v.members[place[0]];
      if SecretPlace(m.value, place[1..], path[1..]) { PlaceIsSecret(m.value, place[1..], path[1..]); }
      assert SecretUnder(m, path[1..]);
    }
  }

  lemma FreeHasNoPlace(v: Value, place: Place, path: Path)
    requires SecretFree(v)
    ensures !SecretPlace(v, place, path)
  {
    hide SecretAt, SecretPlace;
    if SecretPlace(v, place, path) { PlaceIsSecret(v, place, path); }
  }

  /** The first in an array is the first in its first entry that is not free of key material. */
  lemma FirstInItem(v: Value, i: nat, path: Path)
    requires v.Arr? && i < |v.items| && FirstSecret(v.items[i], path)
    requires forall j :: 0 <= j < i ==> SecretFree(v.items[j])
    ensures FirstSecret(v, [At(i)] + path)
  {
    hide SecretFree;
    var rest :| FirstPlace(v.items[i], rest, path);
    var place, longer := [i] + rest, [At(i)] + path;
    assert place[1..] == rest && longer[1..] == path;
    forall q, p | SecretPlace(v, q, p) ensures NotAfter(place, q) {
      if q[0] < i {
        FreeHasNoPlace(v.items[q[0]], q[1..], p[1..]);
      } else if q[0] == i {
        assert SecretPlace(v.items[i], q[1..], p[1..]);
      }
    }
    assert FirstPlace(v, place, longer);
  }

  ghost predicate FirstUnder(m: Member, rest: Place, path: Path) {
    PlaceUnder(m, rest, path) && forall q, p :: PlaceUnder(m, q, p) ==> NotAfter(rest, q)
  }

  lemma PlaceUnderIsSecret(m: Member, rest: Place, path: Path)
    requires PlaceUnder(m, rest, path)
    ensures SecretUnder(m, path)
  {
    if SecretPlace(m.value, rest, path) { PlaceIsSecret(m.value, rest, path); }
  }

  lemma FreeMemberHasNoPlace(m: Member, rest: Place, path: Path)
    requires MemberFree(m)
    ensures !PlaceUnder(m, rest, path)
  {
    hide PlaceUnder, SecretUnder;
    if PlaceUnder(m, rest, path) { PlaceUnderIsSecret(m, rest, path); }
  }

  lemma FirstInMember(v: Value, i: nat, rest: Place, path: Path)
    requires v.Obj? && i < |v.members| && FirstUnder(v.members[i], rest, path)
    requires forall j :: 0 <= j < i ==> MemberFree(v.members[j])
    ensures FirstSecret(v, [Under(v.members[i].key)] + path)
  {
    hide MemberFree, PlaceUnder;
    var place, longer := [i] + rest, [Under(v.members[i].key)] + path;
    assert place[1..] == rest && longer[1..] == path;
    forall q, p | SecretPlace(v, q, p) ensures NotAfter(place, q) {
      if q[0] < i {
        FreeMemberHasNoPlace(v.members[q[0]], q[1..], p[1..]);
      } else if q[0] == i {
        assert PlaceUnder(v.members[i], q[1..], p[1..]);
      }
    }
    assert FirstPlace(v, place, longer);
  }

  /** A member that holds key material itself is where the scan of it stops. */
  lemma FirstAtMember(v: Value, i: nat)
    requires v.Obj? && i < |v.members| && PlaceUnder(v.members[i], [], [])
    requires forall j :: 0 <= j < i ==> MemberFree(v.members[j])
    ensures FirstSecret(v, [Under(v.members[i].key)])
  {
    hide MemberFree, PlaceUnder, FirstSecret;
    FirstInMember(v, i, [], []);
    assert [Under(v.members[i].key)] + [] == [Under(v.members[i].key)];
  }

  lemma FirstBehindMember(v: Value, i: nat, path: Path)
    requires v.Obj? && i < |v.members| && FirstSecret(v.members[i].value, path) && !PlaceUnder(v.members[i], [], [])
    requires forall j :: 0 <= j < i ==> MemberFree(v.members[j])
    ensures FirstSecret(v, [Under(v.members[i].key)] + path)
  {
    hide MemberFree, SecretPlace;
    var m := v.members[i];
    var rest :| FirstPlace(m.value, rest, path);
    hide FirstSecret;
    assert FirstUnder(m, rest, path) by {
      forall q, p | PlaceUnder(m, q, p) ensures NotAfter(rest, q) {
        assert SecretPlace(m.value, q, p);
      }
    }
    FirstInMember(v, i, rest, path);
  }

  // ----- The scan -----

  /** The scan reports the first place of key material if the value holds any, at whatever depth. */
  method FindSecretField(node: Value, path: Path) returns (hit: Option<Path>)
    ensures hit.None? ==> SecretFree(node)
    ensures hit.Some? ==> Reports(node, path, hit.value)
    decreases node
  {
    if node.Arr? {
      hit := FindSecretItem(node, path);
    } else if node.Obj? {
      hit := FindSecretMember(node, path);
    } else {
      hit := None;
    }
  }

  /** The report is the path so far and the way to the first key material. */
  ghost predicate Reports(node: Value, path: Path, hit: Path) {
    && path <= hit
    && FirstSecret(node, hit[|path|..])
  }

  method FindSecretItem(node: Value, path: Path) returns (hit: Option<Path>)
    requires node.Arr?
    ensures hit.None? ==> SecretFree(node)
    ensures hit.Some? ==> Reports(node, path, hit.value)
    decreases node, 0
  {
    var i := 0;
    while i < |node.items|
      invariant 0 <= i <= |node.items|
      invariant forall j :: 0 <= j < i ==> SecretFree(node.items[j])
    {
      hide SecretFree, SecretAt, FirstSecret;
      hit := FindSecretField(node.items[i], path + [At(i)]);
      if hit.Some? {
        FirstInItem(node, i, hit.value[|path| + 1..]);
        ReportGrows(node, path, At(i), hit.value);
        return;
      }
      i := i + 1;
    }
    NoSecretInItems(node);
    hit := None;
  }

  lemma ReportGrows(node: Value, path: Path, step: Step, longer: Path)
    requires |path| < |longer| && path + [step] == longer[..|path| + 1] && FirstSecret(node, [step] + longer[|path| + 1..])
    ensures Reports(node, path, longer)
  {
    assert longer[..|path|] == longer[..|path| + 1][..|path|];
    assert longer[|path|] == longer[..|path| + 1][|path|];
    assert longer[|path|..] == [step] + longer[|path| + 1..];
  }

  method FindSecretMember(node: Value, path: Path) returns (hit: Option<Path>)
    requires node.Obj?
    ensures hit.None? ==> SecretFree(node)
    ensures hit.Some? ==> Reports(node, path, hit.value)
    decreases node, 0
  {
    var i := 0;
    while i < |node.members|
      invariant 0 <= i <= |node.members|
      invariant forall j :: 0 <= j < i ==> MemberFree(node.members[j])
    {
      hide SecretFree, SecretAt, MemberFree, FirstSecret, SecretPlace;
      var m := node.members[i];
      if m.key in SECRET_NAMES && m.value.Str? && m.value.s != [] {
        hit := Some(path + [Under(m.key)]);
        FirstAtMember(node, i);
        assert [Under(m.key)] + hit.value[|path| + 1..] == [Under(m.key)];
        ReportGrows(node, path, Under(m.key), hit.value);
        return;
      }
      hit := FindSecretField(m.value, path + [Under(m.key)]);
      if hit.Some? {
        FirstBehindMember(node, i, hit.value[|path| + 1..]);
        ReportGrows(node, path, Under(m.key), hit.value);
        return;
      }
      MemberIsFree(m);
      i := i + 1;
    }
    assert forall m :: m in node.members ==> MemberFree(m);
    NoSecretInMembers(node);
    hit := None;
  }

  /** Nothing found in a value means nothing is found in a field of it. */
  lemma FieldIsSecretFree(v: Value, key: Text)
    requires SecretFree(v) && Field(v, key).Some?
    ensures SecretFree(Field(v, key).value)
  {
    var m := Member(key, Field(v, key).value);
    forall path: Path ensures !SecretAt(m.value, path) {
      if SecretAt(m.value, path) {
        SecretInMember(v, m, path);
      }
    }
  }

  // ----- Shapes -----

  /** A dimension the sender could not collect. */
  predicate Unavailable(v: Value) {
    && v.Obj? && Field(v, Ascii("status")) == Some(Str(Ascii("unavailable")))
    && Field(v, Ascii("reason")).Some? && Field(v, Ascii("reason")).value.Str?
  }

  predicate IsArray(o: Option<Value>) { o.Some? && o.value.Arr? }

  predicate OptionalString(o: Option<Value>) { o.Some? ==> o.value.Str? }

  const COMPANY_STRINGS: seq<Text> := [Ascii("state"), Ascii("ceoName"), Ascii("onboardedAt")]
  const PROJECT_STRINGS: seq<Text> := [Ascii("projectKey"), Ascii("repoUrl"), Ascii("defaultBranch"), Ascii("devHead")]
  const PROVIDER: Text := Ascii("provider")
  const PROVIDERS: Text := Ascii("providers")
  const SOURCE_COMMIT: Text := Ascii("sourceCommit")
  const KEYS_PROVIDER_FIELDS: seq<Text> := [PROVIDER, Ascii("ready"), Ascii("fingerprint"), Ascii("baseUrl")]

  predicate CatalogEntry(v: Value) {
    HasStrings(v, [Ascii("id"), PROVIDER]) && IsArray(Field(v, Ascii("capabilities")))
  }

  predicate KeysEntry(v: Value) {
    && v.Obj?
    && (forall m :: m in v.members ==> m.key in KEYS_PROVIDER_FIELDS)
    && IsStr(Field(v, PROVIDER))
    && Field(v, Ascii("ready")).Some? && Field(v, Ascii("ready")).value.Bool?
    && OptionalString(Field(v, Ascii("fingerprint"))) && OptionalString(Field(v, Ascii("baseUrl")))
  }

  predicate All(vs: seq<Value>, p: Value -> bool) { forall i :: 0 <= i < |vs| ==> p(vs[i]) }

  predicate Shape(k: DimKey, v: Value) {
    match k
    case Company => HasStrings(v, COMPANY_STRINGS)
    case Model =>
      && HasStrings(v, [Ascii("defaultModel")])
      && IsArray(Field(v, Ascii("catalog"))) && IsArray(Field(v, PROVIDERS))
      && All(ItemsOf(Field(v, Ascii("catalog"))), CatalogEntry)
      && All(ItemsOf(Field(v, PROVIDERS)), (p: Value) => HasStrings(p, [PROVIDER]))
    case Keys =>
      && v.Obj? && IsArray(Field(v, PROVIDERS)) && IsStr(Field(v, Ascii("fetchedAt")))
      && Field(v, Ascii("refreshIntervalS")).Some? && Field(v, Ascii("refreshIntervalS")).value.Number?
      && All(ItemsOf(Field(v, PROVIDERS)), KeysEntry)
    case Employees =>
      && HasStrings(v, [SOURCE_COMMIT]) && IsArray(Field(v, Ascii("roster")))
      && All(ItemsOf(Field(v, Ascii("roster"))), (e: Value) => HasStrings(e, [Ascii("roleId"), Ascii("name")]))
    case Project =>
      && HasStrings(v, PROJECT_STRINGS) && IsArray(Field(v, Ascii("worktrees")))
      && All(ItemsOf(Field(v, Ascii("worktrees"))), (w: Value) => HasStrings(w, [Ascii("path"), Ascii("branch")]))
  }

  predicate DimOk(k: DimKey, o: Option<Value>) { o.Some? && (Unavailable(o.value) || Shape(k, o.value)) }

  /** The loops with early return over the entries of an array. */
  method CheckAll(vs: seq<Value>, p: Value -> bool) returns (ok: bool)
    ensures ok <==> All(vs, p)
  {
    var i := 0;
    while i < |vs|
      invariant 0 <= i <= |vs|
      invariant forall j :: 0 <= j < i ==> p(vs[j])
    {
      if !p(vs[i]) { return false; }
      i := i + 1;
    }
    return true;
  }

  // ----- The bundle -----

  datatype Bundle = Bundle(bundleId: Text, generatedAt: Text, generatedBy: Text, dims: Dims)
  datatype Rejection = SecretField | BadShape | BadSchemaVersion | BadBundleId | BadGeneratedAt | BadGeneratedBy | BadDim(dim: DimKey)
  datatype Validation = Accepted(bundle: Bundle) | Rejected(error: Rejection)

  /** `Date.parse`, in milliseconds; `None` for NaN. */
  type DateParser = Text -> Option<int>

  predicate MetaOk(parseDate: DateParser, raw: Value) {
    && raw.Obj? && Field(raw, Ascii("schemaVersion")) == Some(Number(Finite([0x31])))
    && IsStr(Field(raw, Ascii("bundleId"))) && IsStr(Field(raw, Ascii("generatedAt")))
    && parseDate(TextOf(Field(raw, Ascii("generatedAt")))).Some? && IsStr(Field(raw, Ascii("generatedBy")))
  }

  /** What makes a parsed file a bundle. */
  ghost predicate IsBundle(parseDate: DateParser, raw: Value) {
    && SecretFree(raw) && MetaOk(parseDate, raw)
    && forall k :: DimOk(k, Field(raw, DimName(k)))
  }

  /** The tests of a bundle in the order they are made, each named by what it reports. */
  const TESTS: seq<Rejection> := [SecretField, BadShape, BadSchemaVersion, BadBundleId, BadGeneratedAt, BadGeneratedBy,
                                  BadDim(Company), BadDim(Model), BadDim(Keys), BadDim(Employees), BadDim(Project)]

  function DimOrder(k: DimKey): (i: nat)
    ensures i < 5 && DIM_KEYS[i] == k
  {
    match k
    case Company => 0
    case Model => 1
    case Keys => 2
    case Employees => 3
    case Project => 4
  }

  function Order(e: Rejection): (i: nat)
    ensures i < |TESTS| && TESTS[i] == e
  {
    match e
    case SecretField => 0
    case BadShape => 1
    case BadSchemaVersion => 2
    case BadBundleId => 3
    case BadGeneratedAt => 4
    case BadGeneratedBy => 5
    case BadDim(k) => 6 + DimOrder(k)
  }

  ghost predicate Passes(parseDate: DateParser, raw: Value, e: Rejection) {
    match e
    case SecretField => SecretFree(raw)
    case BadShape => raw.Obj?
    case BadSchemaVersion => Field(raw, Ascii("schemaVersion")) == Some(Number(Finite([0x31])))
    case BadBundleId => IsStr(Field(raw, Ascii("bundleId")))
    case BadGeneratedAt => IsStr(Field(raw, Ascii("generatedAt"))) && parseDate(TextOf(Field(raw, Ascii("generatedAt")))).Some?
    case BadGeneratedBy => IsStr(Field(raw, Ascii("generatedBy")))
    case BadDim(k) => DimOk(k, Field(raw, DimName(k)))
  }

  ghost predicate FirstFailure(parseDate: DateParser, raw: Value, e: Rejection) {
    !Passes(parseDate, raw, e) && forall i :: 0 <= i < Order(e) ==> Passes(parseDate, raw, TESTS[i])
  }

  function DimsOf(raw: Value): Dims {
    var dim := k => match Field(raw, DimName(k)) case Some(v) => v case None => Null;
    Dims(dim(Company), dim(Model), dim(Keys), dim(Employees), dim(Project))
  }

  function BundleOf(raw: Value): Bundle {
    Bundle(TextOf(Field(raw, Ascii("bundleId"))), TextOf(Field(raw, Ascii("generatedAt"))),
           TextOf(Field(raw, Ascii("generatedBy"))), DimsOf(raw))
  }

  method ValidateSyncBundle(parseDate: DateParser, raw: Value) returns (v: Validation)
    ensures v.Accepted? <==> IsBundle(parseDate, raw)
    ensures v.Accepted? ==> v.bundle == BundleOf(raw)
    ensures v.Rejected? ==> FirstFailure(parseDate, raw, v.error)
  {
    var hit := FindSecretField(raw, []);
    hide SecretFree, SecretAt, DimOk, Field, DimsOf, MetaOk;
    if hit.Some? {
      FirstRefutes(raw, hit.value[0..]);
      return Rejected(SecretField);
    }
    var meta := CheckMeta(parseDate, raw);
    if meta.Some? { return Rejected(meta.value); }
    var bad := CheckDims(raw);
    if bad.Some? {
      DimFails(parseDate, raw, bad.value);
      return Rejected(BadDim(bad.value));
    }
    return Accepted(BundleOf(raw));
  }

  /** The tests between that for key material and those of the dimensions. */
  method CheckMeta(parseDate: DateParser, raw: Value) returns (error: Option<Rejection>)
    requires SecretFree(raw)
    ensures error.None? <==> MetaOk(parseDate, raw)
    ensures error.Some? ==> FirstFailure(parseDate, raw, error.value)
  {
    hide SecretFree, DimOk, Field;
    if !raw.Obj? { return Some(BadShape); }
    if Field(raw, Ascii("schemaVersion")) != Some(Number(Finite([0x31]))) { return Some(BadSchemaVersion); }
    if !IsStr(Field(raw, Ascii("bundleId"))) { return Some(BadBundleId); }
    hide IsStr;
    if !IsStr(Field(raw, Ascii("generatedAt"))) || parseDate(TextOf(Field(raw, Ascii("generatedAt")))).None? {
      return Some(BadGeneratedAt);
    }
    if !IsStr(Field(raw, Ascii("generatedBy"))) { return Some(BadGeneratedBy); }
    return None;
  }

  lemma DimFails(parseDate: DateParser, raw: Value, k: DimKey)
    requires SecretFree(raw) && MetaOk(parseDate, raw) && !DimOk(k, Field(raw, DimName(k)))
    requires forall j :: DimOrder(j) < DimOrder(k) ==> DimOk(j, Field(raw, DimName(j)))
    ensures FirstFailure(parseDate, raw, BadDim(k))
  {
    hide SecretFree, DimOk, Field, IsStr;
    forall i | 0 <= i < Order(BadDim(k)) ensures Passes(parseDate, raw, TESTS[i]) {
      if i >= 6 { assert TESTS[i] == BadDim(DIM_KEYS[i - 6]) && DimOrder(DIM_KEYS[i - 6]) == i - 6; }
    }
  }

  method CheckDims(raw: Value) returns (bad: Option<DimKey>)
    ensures bad.None? ==> forall k :: DimOk(k, Field(raw, DimName(k)))
    ensures bad.Some? ==> !DimOk(bad.value, Field(raw, DimName(bad.value)))
    ensures bad.Some? ==> forall k :: DimOrder(k) < DimOrder(bad.value) ==> DimOk(k, Field(raw, DimName(k)))
  {
    hide DimOk;
    var i := 0;
    while i < |DIM_KEYS|
      invariant 0 <= i <= 5
      invariant forall j :: 0 <= j < i ==> DimOk(DIM_KEYS[j], Field(raw, DimName(DIM_KEYS[j])))
    {
      var ok := CheckDim(DIM_KEYS[i], Field(raw, DimName(DIM_KEYS[i])));
      if !ok {
        assert forall k :: DimOrder(k) < i ==> DIM_KEYS[DimOrder(k)] == k;
        assert DimOrder(DIM_KEYS[i]) == i;
        return Some(DIM_KEYS[i]);
      }
      i := i + 1;
    }
    forall k ensures DimOk(k, Field(raw, DimName(k))) {
      assert DIM_KEYS[DimOrder(k)] == k;
    }
    return None;
  }

  lemma FirstRefutes(v: Value, path: Path)
    requires FirstSecret(v, path)
    ensures !SecretFree(v)
  {
    var place :| FirstPlace(v, place, path);
    hide SecretFree;
    if SecretFree(v) { FreeHasNoPlace(v, place, path); }
  }

  method CheckDim(k: DimKey, o: Option<Value>) returns (ok: bool)
    ensures ok <==> DimOk(k, o)
  {
    if o.Some? && Unavailable(o.value) { return true; }
    if o.None? || !o.value.Obj? { return false; }
    var v := o.value;
    hide HasStrings, IsStr, Unavailable, CatalogEntry, KeysEntry;
    match k {
      case Company => ok := HasStrings(v, COMPANY_STRINGS);
      case Model =>
        if !HasStrings(v, [Ascii("defaultModel")]) || !IsArray(Field(v, Ascii("catalog"))) || !IsArray(Field(v, PROVIDERS)) {
          return false;
        }
        ok := CheckAll(ItemsOf(Field(v, Ascii("catalog"))), CatalogEntry);
        if ok { ok := CheckAll(ItemsOf(Field(v, PROVIDERS)), (p: Value) => HasStrings(p, [PROVIDER])); }
      case Keys =>
        if !IsArray(Field(v, PROVIDERS)) || !IsStr(Field(v, Ascii("fetchedAt"))) || Field(v, Ascii("refreshIntervalS")).None?
           || !Field(v, Ascii("refreshIntervalS")).value.Number? {
          return false;
        }
        ok := CheckAll(ItemsOf(Field(v, PROVIDERS)), KeysEntry);
      case Employees =>
        if !HasStrings(v, [SOURCE_COMMIT]) || !IsArray(Field(v, Ascii("roster"))) { return false; }
        ok := CheckAll(ItemsOf(Field(v, Ascii("roster"))), (e: Value) => HasStrings(e, [Ascii("roleId"), Ascii("name")]));
      case Project =>
        if !HasStrings(v, PROJECT_STRINGS) || !IsArray(Field(v, Ascii("worktrees"))) { return false; }
        ok := CheckAll(ItemsOf(Field(v, Ascii("worktrees"))), (w: Value) => HasStrings(w, [Ascii("path"), Ascii("branch")]));
    }
  }

  /** No dimension of an accepted bundle holds key material, and each is a degraded segment or has
      its shape. */
  lemma AcceptedDims(parseDate: DateParser, raw: Value, k: DimKey)
    requires IsBundle(parseDate, raw)
    ensures SecretFree(Dim(BundleOf(raw).dims, k))
    ensures Unavailable(Dim(BundleOf(raw).dims, k)) || Shape(k, Dim(BundleOf(raw).dims, k))
  {
    hide SecretFree, Unavailable, Shape;
    assert DimOk(k, Field(raw, DimName(k)));
    FieldIsSecretFree(raw, DimName(k));
  }

  /** In a well-shaped keys dimension nothing but the four listed fields reaches the disk. */
  lemma KeysFieldsListed(parseDate: DateParser, raw: Value, entry: Value, m: Member)
    ensures var keys := BundleOf(raw).dims.keys;
      IsBundle(parseDate, raw) && !Unavailable(keys) && entry in ItemsOf(Field(keys, PROVIDERS)) && entry.Obj? && m in entry.members
      ==> m.key in KEYS_PROVIDER_FIELDS
  {
    hide SecretFree, Unavailable, MetaOk;
    var keys := BundleOf(raw).dims.keys;
    if IsBundle(parseDate, raw) && !Unavailable(keys) && entry in ItemsOf(Field(keys, PROVIDERS)) {
      assert DimOk(Keys, Field(raw, DimName(Keys)));
      assert KeysEntry(entry);
    }
  }

  // ----- Names -----

  /** The four names for key material, in code units: `api_key`, `apiKey`, `secret` and `token`. */
  const SECRET_UNITS: seq<Text> := [[0x61, 0x70, 0x69, 0x5F, 0x6B, 0x65, 0x79], [0x61, 0x70, 0x69, 0x4B, 0x65, 0x79],
                                    [0x73, 0x65, 0x63, 0x72, 0x65, 0x74], [0x74, 0x6F, 0x6B, 0x65, 0x6E]]

  lemma SecretNamesSpelled()
    ensures SECRET_NAMES == SECRET_UNITS
  {
    assert SECRET_NAMES[0] == SECRET_UNITS[0] && SECRET_NAMES[1] == SECRET_UNITS[1];
    assert SECRET_NAMES[2] == SECRET_UNITS[2] && SECRET_NAMES[3] == SECRET_UNITS[3];
  }

  /** A string member is refused exactly if it has one of these names and is not empty. */
  lemma SecretsByName(key: Text, s: Text)
    ensures SecretFree(Obj([Member(key, Str(s))])) <==> s == [] || key !in SECRET_UNITS
  {
    SecretNamesSpelled();
    var m, v := Member(key, Str(s)), Obj([Member(key, Str(s))]);
    hide SECRET_NAMES, SECRET_UNITS;
    if s != [] && key in SECRET_NAMES {
      assert SecretUnder(m, []);
      SecretInMember(v, m, []);
    } else {
      assert SecretFree(Str(s));
      MemberIsFree(m);
      hide MemberFree, SecretFree;
      NoSecretInMembers(v);
    }
  }

  /** A field is an array, and each of its entries is as wanted. */
  predicate EachOf(v: Value, name: string, wanted: Value -> bool) {
    match Field(v, Ascii(name))
    case Some(Arr(items)) => forall i :: 0 <= i < |items| ==> wanted(items[i])
    case _ => false
  }

  /** A provider of the keys dimension: a name, whether it is ready, and nothing but what is listed. */
  predicate ProviderEntry(e: Value) {
    && e.Obj?
    && (forall m :: m in e.members ==> m.key in {Ascii("provider"), Ascii("ready"), Ascii("fingerprint"), Ascii("baseUrl")})
    && IsStr(Field(e, Ascii("provider")))
    && (match Field(e, Ascii("ready")) case Some(ready) => ready.Bool? case None => false)
    && (match Field(e, Ascii("fingerprint")) case Some(f) => f.Str? case None => true)
    && (match Field(e, Ascii("baseUrl")) case Some(url) => url.Str? case None => true)
  }

  /** The fields the company dimension is asked for, under their names; and so for the others. */
  lemma CompanyByName(v: Value)
    ensures Shape(Company, v) <==> HasStrings(v, [Ascii("state"), Ascii("ceoName"), Ascii("onboardedAt")])
  {
    hide Ascii, HasStrings;
  }

  lemma ModelByName(v: Value)
    ensures Shape(Model, v) <==>
      && HasStrings(v, [Ascii("defaultModel")])
      && EachOf(v, "catalog", e => HasStrings(e, [Ascii("id"), Ascii("provider")]) && IsArray(Field(e, Ascii("capabilities"))))
      && EachOf(v, "providers", e => HasStrings(e, [Ascii("provider")]))
  {
    hide Ascii, Field, HasStrings;
  }

  lemma KeysByName(v: Value)
    ensures Shape(Keys, v) <==>
      && v.Obj? && IsStr(Field(v, Ascii("fetchedAt")))
      && (match Field(v, Ascii("refreshIntervalS")) case Some(n) => n.Number? case None => false)
      && EachOf(v, "providers", e => ProviderEntry(e))
  {
    forall e: Value ensures KeysEntry(e) <==> ProviderEntry(e) {
      ProviderByName(e);
    }
    hide Ascii, Field, KeysEntry, ProviderEntry;
  }

  lemma ProviderByName(e: Value)
    ensures KeysEntry(e) <==> ProviderEntry(e)
  {
    assert KEYS_PROVIDER_FIELDS == [Ascii("provider"), Ascii("ready"), Ascii("fingerprint"), Ascii("baseUrl")];
    hide Ascii, Field;
  }

  lemma EmployeesByName(v: Value)
    ensures Shape(Employees, v) <==>
      && HasStrings(v, [Ascii("sourceCommit")])
      && EachOf(v, "roster", e => HasStrings(e, [Ascii("roleId"), Ascii("name")]))
  {
    hide Ascii, Field, HasStrings;
  }

  lemma ProjectByName(v: Value)
    ensures Shape(Project, v) <==>
      && HasStrings(v, [Ascii("projectKey"), Ascii("repoUrl"), Ascii("defaultBranch"), Ascii("devHead")])
      && EachOf(v, "worktrees", e => HasStrings(e, [Ascii("path"), Ascii("branch")]))
  {
    hide Ascii, Field, HasStrings;
  }

  /** A dimension that says it is unavailable passes whatever the reason it gives, and one that says
      anything else does so by its shape. */
  lemma DegradedPasses(k: DimKey, status: Text, reason: Text)
    ensures var v := Obj([Member(Ascii("status"), Str(status)), Member(Ascii("reason"), Str(reason))]);
      DimOk(k, Some(v)) <==> status == Ascii("unavailable") || Shape(k, v)
  {
    var s, r := Member(Ascii("status"), Str(status)), Member(Ascii("reason"), Str(reason));
    assert Ascii("status")[0] != Ascii("reason")[0];
    hide Ascii, Shape;
    assert [s, r][..1] == [s];
  }

  /** The frame of a bundle: version 1, an id, a time that can be read, a sender, and five dimensions. */
  lemma FrameByName(parseDate: DateParser, raw: Value)
    ensures IsBundle(parseDate, raw) <==>
      && SecretFree(raw) && raw.Obj?
      && Field(raw, Ascii("schemaVersion")) == Some(Number(Finite([0x31])))
      && IsStr(Field(raw, Ascii("bundleId"))) && IsStr(Field(raw, Ascii("generatedBy")))
      && IsStr(Field(raw, Ascii("generatedAt"))) && parseDate(Field(raw, Ascii("generatedAt")).value.s).Some?
      && DimOk(Company, Field(raw, Ascii("company"))) && DimOk(Model, Field(raw, Ascii("model")))
      && DimOk(Keys, Field(raw, Ascii("keys"))) && DimOk(Employees, Field(raw, Ascii("employees")))
      && DimOk(Project, Field(raw, Ascii("project")))
  {
    hide Ascii, Field, DimOk, SecretFree;
    if IsBundle(parseDate, raw) {
      forall k ensures DimOk(k, Field(raw, DimName(k))) {}
    }
    assert DimName(Company) == Ascii("company") && DimName(Model) == Ascii("model") && DimName(Keys) == Ascii("keys");
    assert DimName(Employees) == Ascii("employees") && DimName(Project) == Ascii("project");
  }
}
