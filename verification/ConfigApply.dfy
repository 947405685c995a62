/** Applying the bundle in the fleet work tree: it is validated, compared with the applied manifest,
    and landed or left. Reading and writing are atomic here; the clock, the environment and what git
    prints are inputs of a run. */
module ConfigApply {
  import opened ConfigState
  import opened ContentHash
  import opened Json
  import opened StableSort
  import opened SyncBundle
  import opened Wrappers

  datatype FleetFile = Missing | NotJson | Readable(raw: Value)

  /** `env` has the variables set to more than white space; `head` and `headAfterPull` are what the
      two `rev-parse` calls print, if they succeed. */
  datatype Input = Input(file: FleetFile, env: set<Text>, head: Option<Text>, headAfterPull: Option<Text>, now: Text)

  // ----- Statuses of a landing -----

  function EnvKey(provider: Text): Option<Text> {
    if provider == Ascii("deepseek") then Some(Ascii("DEEPSEEK_API_KEY"))
    else if provider == Ascii("anthropic") then Some(Ascii("ANTHROPIC_API_KEY"))
    else if provider == Ascii("openai") then Some(Ascii("OPENAI_API_KEY"))
    else if provider == Ascii("trimetaverse") then Some(Ascii("TRIMODEL_TRIMETAVERSE_API_KEY"))
    else None
  }

  function ProviderName(entry: Value): Text { TextOf(Field(entry, PROVIDER)) }

  predicate Covered(env: set<Text>, entry: Value) {
    var name := EnvKey(ProviderName(entry));
    name.Some? && name.value in env
  }

  function Entries(keys: Value): seq<Value> { ItemsOf(Field(keys, PROVIDERS)) }

  function Uncovered(env: set<Text>, entries: seq<Value>): seq<Value> {
    Filter(entries, entry => !Covered(env, entry))
  }

  function KeysStatus(env: set<Text>, keys: Value): Status {
    if Unavailable(keys) then Degraded
    else if forall i :: 0 <= i < |Entries(keys)| ==> Covered(env, Entries(keys)[i]) then Applied
    else Warned
  }

  function Names(entries: seq<Value>): seq<Text> {
    if entries == [] then [] else Names(entries[..|entries| - 1]) + [ProviderName(entries[|entries| - 1])]
  }

  lemma UncoveredGrows(env: set<Text>, entries: seq<Value>, i: nat)
    requires i < |entries|
    ensures var was, now := Uncovered(env, entries[..i]), Uncovered(env, entries[..i + 1]);
      if Covered(env, entries[i]) then now == was else now == was + [entries[i]] && Names(now) == Names(was) + [ProviderName(entries[i])]
  {
    hide Covered, ProviderName;
    assert entries[..i + 1][..i] == entries[..i];
    var was := Uncovered(env, entries[..i]);
    assert (was + [entries[i]])[..|was|] == was;
  }

  method ResolveKeysDim(keys: Value, env: set<Text>) returns (status: Status, uncovered: seq<Text>)
    ensures status == KeysStatus(env, keys)
    ensures status.Warned? ==> uncovered == Names(Uncovered(env, Entries(keys)))
  {
    hide Unavailable, Covered, Uncovered, Names, Entries;
    if Unavailable(keys) { return Degraded, []; }
    uncovered := CollectUncovered(Entries(keys), env);
    status := if uncovered == [] then Applied else Warned;
  }

  method CollectUncovered(entries: seq<Value>, env: set<Text>) returns (uncovered: seq<Text>)
    ensures uncovered == Names(Uncovered(env, entries))
    ensures uncovered == [] <==> forall i :: 0 <= i < |entries| ==> Covered(env, entries[i])
  {
    NothingUncovered(env, entries[..0]);
    hide Covered, Uncovered, ProviderName, Names;
    uncovered := [];
    var i := 0;
    while i < |entries|
      invariant 0 <= i <= |entries|
      invariant uncovered == Names(Uncovered(env, entries[..i]))
      invariant uncovered == [] <==> forall j :: 0 <= j < i ==> Covered(env, entries[j])
    {
      UncoveredGrows(env, entries, i);
      if !Covered(env, entries[i]) {
        uncovered := uncovered + [ProviderName(entries[i])];
      }
      i := i + 1;
    }
    assert entries[..i] == entries;
  }

  lemma NothingUncovered(env: set<Text>, entries: seq<Value>)
    requires entries == []
    ensures Names(Uncovered(env, entries)) == []
  {}

  function CommitOf(employees: Value): Text { TextOf(Field(employees, SOURCE_COMMIT)) }

  /** Applied exactly if one of the two readings of HEAD is the commit the bundle was made from. */
  function EmployeesStatus(input: Input, employees: Value): Status {
    if Unavailable(employees) then Degraded
    else if Some(CommitOf(employees)) == input.head || Some(CommitOf(employees)) == input.headAfterPull then Applied
    else Warned
  }

  function LastHead(input: Input): Text {
    if input.headAfterPull.Some? then input.headAfterPull.value
    else if input.head.Some? then input.head.value else []
  }

  method ResolveEmployeesDim(employees: Value, input: Input) returns (status: Status, head: Text)
    requires Unavailable(employees) || CommitOf(employees) != []
    ensures status == EmployeesStatus(input, employees)
    ensures status.Warned? ==> head == LastHead(input)
    ensures status.Applied? ==> head == CommitOf(employees)
  {
    hide Unavailable, CommitOf;
    if Unavailable(employees) { return Degraded, []; }
    head := [];
    if input.head.Some? { head := input.head.value; }
    if head != CommitOf(employees) {
      if input.headAfterPull.Some? { head := input.headAfterPull.value; }
      if head != CommitOf(employees) { return Warned, head; }
    }
    return Applied, head;
  }

  function Plain(v: Value): Status { if Unavailable(v) then Degraded else Applied }

  function StatusesOf(input: Input, d: Dims): Statuses {
    Statuses(Plain(d.company), Plain(d.model), KeysStatus(input.env, d.keys), EmployeesStatus(input, d.employees), Plain(d.project))
  }

  function WarningsOf(input: Input, d: Dims): seq<Warning> {
    (if KeysStatus(input.env, d.keys).Warned? then [KeysNotCovered(Names(Uncovered(input.env, Entries(d.keys))))] else [])
    + (if EmployeesStatus(input, d.employees).Warned? then [EmployeesBehind(LastHead(input))] else [])
  }

  // ----- One run -----

  /** The content hash is a digest of the canonical text. */
  function HostOf(parseDate: DateParser, digest: Text -> Text): Host {
    Host(parseDate, (d: Dims) => digest(HashInput(d)))
  }

  ghost function Presented(host: Host, input: Input): Option<Bundle> {
    if input.file.Readable? && IsBundle(host.parseDate, input.file.raw) then Some(BundleOf(input.file.raw)) else None
  }

  function ArrivalOf(input: Input, b: Bundle): Arrival {
    Arrival(b, input.now, StatusesOf(input, b.dims), WarningsOf(input, b.dims))
  }

  /** The run as a visit of the state machine. */
  ghost function VisitOf(host: Host, input: Input): Visit {
    var b := Presented(host, input);
    if b.Some? then Some(ArrivalOf(input, b.value)) else None
  }

  class ConfigSync {
    const host: Host
    var manifest: Option<Manifest>
    var files: map<DimKey, Value>

    constructor (parseDate: DateParser, digest: Text -> Text)
      ensures host == HostOf(parseDate, digest) && Contents() == EMPTY
    {
      host := HostOf(parseDate, digest);
      manifest, files := None, map[];
    }

    ghost function Contents(): State
      reads this
    {
      State(manifest, files)
    }

    method LandBundle(b: Bundle, contentHash: Text, dims: Statuses, warnings: seq<Warning>, now: Text)
      modifies this
      ensures manifest == Some(Manifest(b.bundleId, b.generatedAt, contentHash, b.generatedBy, now, dims, warnings))
      ensures files == FilesOf(b.dims)
    {
      manifest := Some(Manifest(b.bundleId, b.generatedAt, contentHash, b.generatedBy, now, dims, warnings));
      var i := 0;
      while i < |DIM_KEYS|
        invariant 0 <= i <= 5
        invariant manifest == Some(Manifest(b.bundleId, b.generatedAt, contentHash, b.generatedBy, now, dims, warnings))
        invariant forall j :: 0 <= j < i ==> DIM_KEYS[j] in files && files[DIM_KEYS[j]] == Dim(b.dims, DIM_KEYS[j])
      {
        files := files[DIM_KEYS[i] := Dim(b.dims, DIM_KEYS[i])];
        i := i + 1;
      }
      AllFilesLanded(files, b.dims);
    }

    method Land(b: Bundle, input: Input) returns (outcome: Outcome)
      requires Unavailable(b.dims.employees) || CommitOf(b.dims.employees) != []
      modifies this
      ensures Contents() == State(Some(ManifestOf(host, ArrivalOf(input, b))), FilesOf(b.dims))
      ensures outcome == Landed(b.bundleId)
    {
      var keysStatus, uncovered := ResolveKeysDim(b.dims.keys, input.env);
      var employeesStatus, head := ResolveEmployeesDim(b.dims.employees, input);
      hide KeysStatus, EmployeesStatus, Unavailable, HashInput;
      var warnings := if keysStatus.Warned? then [KeysNotCovered(uncovered)] else [];
      if employeesStatus.Warned? { warnings := warnings + [EmployeesBehind(head)]; }
      var dims := Statuses(Plain(b.dims.company), Plain(b.dims.model), keysStatus, employeesStatus, Plain(b.dims.project));
      assert dims == StatusesOf(input, b.dims);
      assert warnings == WarningsOf(input, b.dims);
      hide Plain, FilesOf, Names, Uncovered, Entries, StatusesOf, WarningsOf;
      LandBundle(b, host.hashOf(b.dims), dims, warnings, input.now);
      return Landed(b.bundleId);
    }

    /** One run does what the state machine does on its visit. */
    method RunConfigSyncApply(input: Input) returns (outcome: Outcome)
      modifies this
      ensures Contents() == After(host, old(Contents()), VisitOf(host, input))
      ensures outcome == match VisitOf(host, input)
        case Some(a) => Confront(host, old(Contents()), a).1
        case None => if input.file.Missing? then NoBundle else InvalidBundle
    {
      hide KeysStatus, EmployeesStatus, Unavailable, HashInput, IsBundle, BundleOf, CommitOf, ArrivalOf;
      if input.file.Missing? { return NoBundle; }
      if input.file.NotJson? { return InvalidBundle; }
      var validation := ValidateSyncBundle(host.parseDate, input.file.raw);
      if validation.Rejected? { return InvalidBundle; }
      var b := validation.bundle;
      ArrivalCarries(input, b);
      if manifest.Some? {
        var m := manifest.value;
        match Compare(host, b, m) {
          case Same => return NoOp(b.bundleId);
          case Ignore(None) => return IgnoredStale(b.bundleId);
          case Ignore(Some(w)) =>
            manifest := Some(m.(warnings := m.warnings + [w]));
            return WarningStale(b.bundleId);
          case Proceed =>
        }
      }
      AcceptedCommit(host.parseDate, input.file.raw);
      outcome := Land(b, input);
    }
  }

  lemma ArrivalCarries(input: Input, b: Bundle)
    ensures ArrivalOf(input, b).bundle == b
  {}

  lemma AllFilesLanded(files: map<DimKey, Value>, d: Dims)
    requires forall j :: 0 <= j < 5 ==> DIM_KEYS[j] in files && files[DIM_KEYS[j]] == Dim(d, DIM_KEYS[j])
    ensures files == FilesOf(d)
  {
    forall k: DimKey ensures k in files && files[k] == Dim(d, k) {
      assert DIM_KEYS[DimOrder(k)] == k;
    }
  }

  lemma AcceptedCommit(parseDate: DateParser, raw: Value)
    requires IsBundle(parseDate, raw)
    ensures Unavailable(BundleOf(raw).dims.employees) || CommitOf(BundleOf(raw).dims.employees) != []
  {
    AcceptedDims(parseDate, raw, Employees);
    hide Unavailable, SecretFree, Field, IsBundle;
    var v := BundleOf(raw).dims.employees;
    if !Unavailable(v) {
      assert HasStrings(v, [SOURCE_COMMIT]);
      assert [SOURCE_COMMIT][0] == SOURCE_COMMIT;
    }
  }

  // ----- What every run keeps -----

  ghost predicate DimSound(k: DimKey, v: Value) { SecretFree(v) && (Unavailable(v) || Shape(k, v)) }

  ghost predicate DimsSound(d: Dims) { forall k :: DimSound(k, Dim(d, k)) }

  predicate StatusFits(s: Status, v: Value) { s.Degraded? <==> Unavailable(v) }

  predicate StatusesFit(s: Statuses, d: Dims) {
    && s.company == Plain(d.company) && s.model == Plain(d.model) && s.project == Plain(d.project)
    && StatusFits(s.keys, d.keys) && StatusFits(s.employees, d.employees)
  }

  /** The manifest speaks of the files beside it, and the files are sound. */
  ghost predicate Describes(host: Host, m: Manifest, d: Dims) {
    m.contentHash == host.hashOf(d) && StatusesFit(m.dims, d) && DimsSound(d) && host.parseDate(m.generatedAt).Some?
  }

  ghost predicate Consistent(host: Host, s: State) {
    if s.manifest.None? then s.files == map[]
    else exists d: Dims :: s.files == FilesOf(d) && Describes(host, s.manifest.value, d)
  }

  lemma PresentedIsSound(host: Host, input: Input)
    ensures var b := Presented(host, input); b.Some? ==> Dated(host, b.value) && DimsSound(b.value.dims)
  {
    if Presented(host, input).Some? {
      var b := Presented(host, input).value;
      forall k ensures DimSound(k, Dim(b.dims, k)) {
        AcceptedDims(host.parseDate, input.file.raw, k);
      }
      hide SecretFree, Unavailable, Shape, Field, DimOk;
    }
  }

  lemma StatusesOfFit(input: Input, d: Dims)
    ensures StatusesFit(StatusesOf(input, d), d)
  {
    hide Unavailable, Covered, CommitOf;
  }

  lemma RunKeepsConsistent(host: Host, s: State, input: Input)
    requires Consistent(host, s)
    ensures Consistent(host, After(host, s, VisitOf(host, input)))
  {
    if Presented(host, input).Some? {
      var b := Presented(host, input).value;
      PresentedIsSound(host, input);
      StatusesOfFit(input, b.dims);
      var m := ManifestOf(host, ArrivalOf(input, b));
      assert m.dims == StatusesOf(input, b.dims);
      hide Presented, DimsSound, StatusesFit, StatusesOf, WarningsOf, HashInput;
      assert Describes(host, m, b.dims);
      hide ArrivalOf, FilesOf, ManifestOf;
      KeepsConsistent(host, s, ArrivalOf(input, b));
    }
  }

  lemma KeepsConsistent(host: Host, s: State, a: Arrival)
    requires Consistent(host, s) && Describes(host, ManifestOf(host, a), a.bundle.dims)
    ensures Consistent(host, Confront(host, s, a).0)
  {
    hide DimsSound, StatusesFit, FilesOf;
    var (after, outcome) := Confront(host, s, a);
    if outcome.Landed? {
      assert after.files == FilesOf(a.bundle.dims) && Describes(host, after.manifest.value, a.bundle.dims);
    } else if outcome.WarningStale? {
      var d: Dims :| s.files == FilesOf(d) && Describes(host, s.manifest.value, d);
      assert after.files == FilesOf(d) && Describes(host, after.manifest.value, d);
    }
  }

  ghost function Visits(host: Host, inputs: seq<Input>): (r: seq<Visit>)
    ensures |r| == |inputs|
  {
    seq(|inputs|, i requires 0 <= i < |inputs| => VisitOf(host, inputs[i]))
  }

  ghost function DiskAfter(host: Host, inputs: seq<Input>): State { Final(host, Visits(host, inputs)) }

  lemma VisitsFront(host: Host, inputs: seq<Input>)
    requires inputs != []
    ensures DiskAfter(host, inputs) == After(host, DiskAfter(host, inputs[..|inputs| - 1]), VisitOf(host, inputs[|inputs| - 1]))
  {
    hide VisitOf, After;
    var vs := Visits(host, inputs);
    assert vs[..|vs| - 1] == Visits(host, inputs[..|inputs| - 1]);
  }

  /** After any runs the manifest's hash and statuses are those of the five files beside it. */
  lemma {:induction false} DiskConsistent(host: Host, inputs: seq<Input>)
    ensures Consistent(host, DiskAfter(host, inputs))
  {
    hide Consistent, VisitOf, After;
    if inputs == [] {
      EmptyConsistent(host);
    } else {
      DiskConsistent(host, inputs[..|inputs| - 1]);
      RunKeepsConsistent(host, DiskAfter(host, inputs[..|inputs| - 1]), inputs[|inputs| - 1]);
      VisitsFront(host, inputs);
    }
  }

  lemma EmptyConsistent(host: Host)
    ensures Consistent(host, EMPTY)
  {}

  /** No key material is ever on the disk, at whatever depth of whichever file. */
  lemma NoSecretOnDisk(host: Host, inputs: seq<Input>, k: DimKey, path: Path)
    requires k in DiskAfter(host, inputs).files
    ensures !SecretAt(DiskAfter(host, inputs).files[k], path)
  {
    DiskConsistent(host, inputs);
    var s := DiskAfter(host, inputs);
    hide DiskAfter, StatusesFit, SecretAt, Shape, Unavailable;
    var d: Dims :| s.files == FilesOf(d) && Describes(host, s.manifest.value, d);
    assert DimSound(k, Dim(d, k));
    assert s.files[k] == Dim(d, k);
  }

  /** Every run hands the state machine a bundle with a parseable time. */
  lemma VisitsDated(host: Host, inputs: seq<Input>)
    ensures AllDated(host, Visits(host, inputs))
  {
    forall b | PresentedIn(b, Visits(host, inputs)) ensures Dated(host, b) {
      var i :| PresentedAt(b, Visits(host, inputs), i);
      PresentedIsSound(host, inputs[i]);
      hide Presented, ArrivalOf, Dated;
      ArrivalCarries(inputs[i], Presented(host, inputs[i]).value);
    }
  }

  /** Runs converge: with one bundle to an id, the disk ends at the last presented of the latest
      bundles, and the order and repetitions do not matter exactly if there is one latest. */
  lemma RunsConverge(host: Host, inputs: seq<Input>) returns (winner: Option<Bundle>)
    requires IdsDetermine(Visits(host, inputs))
    ensures EndsAt(host, Visits(host, inputs), winner)
    ensures OrderFree(host, Visits(host, inputs))
      <==> LatestUnique(host, Visits(host, inputs))
  {
    hide Visits, EndsAt, IdsDetermine, AllDated, OrderFree, LatestUnique;
    VisitsDated(host, inputs);
    winner := EndsAtLastLatest(host, Visits(host, inputs));
    ConvergesExactly(host, Visits(host, inputs));
  }

  /** No run sets the applied time back. */
  lemma AppliedTimeNeverDecreases(host: Host, inputs: seq<Input>, input: Input)
    requires DiskAfter(host, inputs).manifest.Some?
    ensures var before := DiskAfter(host, inputs).manifest.value;
      var after := After(host, DiskAfter(host, inputs), VisitOf(host, input)).manifest;
      && after.Some? && host.parseDate(before.generatedAt).Some? && host.parseDate(after.value.generatedAt).Some?
      && host.parseDate(before.generatedAt).value <= host.parseDate(after.value.generatedAt).value
  {
    DiskConsistent(host, inputs);
    var s := DiskAfter(host, inputs);
    hide DiskAfter, DimsSound, StatusesFit, FilesOf, HashInput;
    if Presented(host, input).Some? {
      var b := Presented(host, input).value;
      PresentedIsSound(host, input);
      ArrivalCarries(input, b);
      hide Presented, ArrivalOf;
      TimeNeverDecreases(host, s, ArrivalOf(input, b));
    }
  }

  ghost predicate SameContent(d: Dims, e: Dims) {
    && Alike(d.company, e.company) && Alike(d.model, e.model) && Alike(d.keys, e.keys)
    && Alike(d.employees, e.employees) && AlikeExceptDevHead(d.project, e.project)
  }

  ghost predicate Injective(digest: Text -> Text) { forall t, u :: digest(t) == digest(u) ==> t == u }

  /** With a digest that tells texts apart, a stale bundle is reported for its content exactly if a
      dimension differs in more than member order and the project's `devHead`. */
  lemma HashWarningExactly(parseDate: DateParser, digest: Text -> Text, b: Bundle, applied: Dims, m: Manifest)
    requires Injective(digest) && Parsed(applied) && Parsed(b.dims)
    requires m.contentHash == digest(HashInput(applied)) && b.bundleId != m.bundleId
    requires var t, u := parseDate(b.generatedAt), parseDate(m.generatedAt); t.Some? && u.Some? && t.value < u.value
    ensures Compare(HostOf(parseDate, digest), b, m) == Ignore(Some(ContentHashDiffers))
      <==> !SameContent(b.dims, applied)
  {
    HashInputIdentifies(b.dims, applied);
    hide Parsed, Alike, AlikeExceptDevHead, HashInput;
    assert HostOf(parseDate, digest).hashOf(b.dims) == digest(HashInput(b.dims));
  }

  /** Which variable of the environment covers which provider. */
  const VARIABLES: seq<(string, string)> := [
    ("deepseek", "DEEPSEEK_API_KEY"), ("anthropic", "ANTHROPIC_API_KEY"), ("openai", "OPENAI_API_KEY"),
    ("trimetaverse", "TRIMODEL_TRIMETAVERSE_API_KEY")]

  /** The keys dimension is applied as far as the environment has the variables of its providers. */
  lemma CoveredByVariable(env: set<Text>, entry: Value)
    ensures Covered(env, entry) <==>
      exists i :: 0 <= i < |VARIABLES| && ProviderName(entry) == Ascii(VARIABLES[i].0) && Ascii(VARIABLES[i].1) in env
  {
    ProviderNamesDiffer();
    hide Ascii, ProviderName;
    forall i | 0 <= i < |VARIABLES| ensures EnvKey(Ascii(VARIABLES[i].0)) == Some(Ascii(VARIABLES[i].1)) {}
    assert VARIABLES[0].0 == "deepseek" && VARIABLES[1].0 == "anthropic" && VARIABLES[2].0 == "openai" && VARIABLES[3].0 == "trimetaverse";
  }

  lemma ProviderNamesDiffer()
    ensures forall i, j :: 0 <= i < j < |VARIABLES| ==> Ascii(VARIABLES[i].0) != Ascii(VARIABLES[j].0)
  {
    forall i, j | 0 <= i < j < |VARIABLES| ensures |VARIABLES[i].0| != |VARIABLES[j].0| {}
  }

  /** What a landing records of a bundle: degraded dimensions as such, warnings for keys that no
      variable covers and for a commit that is not the head, before or after pulling. */
  lemma LandingByInput(input: Input, d: Dims)
    ensures var s, commit := StatusesOf(input, d), CommitOf(d.employees);
      && s.company == (if Unavailable(d.company) then Degraded else Applied)
      && s.model == (if Unavailable(d.model) then Degraded else Applied)
      && s.project == (if Unavailable(d.project) then Degraded else Applied)
      && (s.keys.Degraded? <==> Unavailable(d.keys))
      && (s.keys.Warned? <==> !Unavailable(d.keys) && exists e :: e in Entries(d.keys) && !Covered(input.env, e))
      && (s.employees.Degraded? <==> Unavailable(d.employees))
      && (s.employees.Applied? <==> !Unavailable(d.employees) && Some(commit) in {input.head, input.headAfterPull})
      && |WarningsOf(input, d)| == (if s.keys.Warned? then 1 else 0) + (if s.employees.Warned? then 1 else 0)
  {
    hide Unavailable, Covered, Entries, CommitOf, Names, Uncovered;
    if e :| e in Entries(d.keys) && !Covered(input.env, e) {
      var i :| 0 <= i < |Entries(d.keys)| && Entries(d.keys)[i] == e;
    }
  }

  /** The commit of the employees, the providers of the keys and their names, under their names. */
  lemma FieldsByName(v: Value)
    ensures CommitOf(v) == (match Field(v, Ascii("sourceCommit")) case Some(Str(s)) => s case _ => [])
    ensures Entries(v) == (match Field(v, Ascii("providers")) case Some(Arr(items)) => items case _ => [])
    ensures ProviderName(v) == (match Field(v, Ascii("provider")) case Some(Str(s)) => s case _ => [])
  {
    hide Ascii, Field;
  }
}
