/** The applied manifest and the dimension files as a state machine over the validated bundles that
    successive runs find, and where it converges. `None` stands for a run that finds no bundle. */
module ConfigState {
  import opened ContentHash
  import opened Json
  import opened SyncBundle
  import opened Wrappers

  datatype Status = Applied | Degraded | Warned
  datatype Statuses = Statuses(company: Status, model: Status, keys: Status, employees: Status, project: Status)

  datatype Warning =
    | KeysNotCovered(providers: seq<Text>)
    | EmployeesBehind(head: Text)
    | ContentHashDiffers
    | SourceInstanceDiffers

  datatype Manifest = Manifest(bundleId: Text, generatedAt: Text, contentHash: Text, sourceInstanceId: Text,
                               lastAppliedAt: Text, dims: Statuses, warnings: seq<Warning>)

  /** What is on the disk: no manifest if it is missing or unreadable. */
  datatype State = State(manifest: Option<Manifest>, files: map<DimKey, Value>)

  const EMPTY: State := State(None, map[])

  /** A validated bundle with what its landing would record beside it. */
  datatype Arrival = Arrival(bundle: Bundle, now: Text, dims: Statuses, warnings: seq<Warning>)

  /** `Date.parse` and the content hash of five dimensions; nothing is assumed about them. */
  datatype Host = Host(parseDate: DateParser, hashOf: Dims -> Text)

  datatype Outcome =
    | NoBundle
    | NoOp(id: Text)
    | Landed(id: Text)
    | IgnoredStale(id: Text)
    | WarningStale(id: Text)
    | InvalidBundle

  datatype Comparison = Proceed | Same | Ignore(warning: Option<Warning>)

  function Compare(host: Host, b: Bundle, m: Manifest): Comparison {
    if b.bundleId == m.bundleId then Same
    else
      var bundleTime, appliedTime := host.parseDate(b.generatedAt), host.parseDate(m.generatedAt);
      if bundleTime.Some? && appliedTime.Some? && bundleTime.value < appliedTime.value then
        if host.hashOf(b.dims) != m.contentHash then Ignore(Some(ContentHashDiffers))
        else if b.generatedBy != m.sourceInstanceId then Ignore(Some(SourceInstanceDiffers))
        else Ignore(None)
      else Proceed
  }

  function FilesOf(d: Dims): map<DimKey, Value> {
    map[Company := d.company, Model := d.model, Keys := d.keys, Employees := d.employees, Project := d.project]
  }

  function ManifestOf(host: Host, a: Arrival): Manifest {
    var b := a.bundle;
    Manifest(b.bundleId, b.generatedAt, host.hashOf(b.dims), b.generatedBy, a.now, a.dims, a.warnings)
  }

  function Confront(host: Host, s: State, a: Arrival): (State, Outcome) {
    match if s.manifest.Some? then Compare(host, a.bundle, s.manifest.value) else Proceed
    case Proceed => (State(Some(ManifestOf(host, a)), FilesOf(a.bundle.dims)), Landed(a.bundle.bundleId))
    case Same => (s, NoOp(a.bundle.bundleId))
    case Ignore(None) => (s, IgnoredStale(a.bundle.bundleId))
    case Ignore(Some(w)) =>
      var m := s.manifest.value;
      (s.(manifest := Some(m.(warnings := m.warnings + [w]))), WarningStale(a.bundle.bundleId))
  }

  type Visit = Option<Arrival>

  function After(host: Host, s: State, v: Visit): State {
    if v.Some? then Confront(host, s, v.value).0 else s
  }

  function Final(host: Host, visits: seq<Visit>): State {
    if visits == [] then EMPTY else After(host, Final(host, visits[..|visits| - 1]), visits[|visits| - 1])
  }

  // ----- Which bundle the disk ends at -----

  predicate PresentedAt(b: Bundle, visits: seq<Visit>, i: int) {
    0 <= i < |visits| && visits[i].Some? && visits[i].value.bundle == b
  }

  ghost predicate PresentedIn(b: Bundle, visits: seq<Visit>) {
    exists i :: PresentedAt(b, visits, i)
  }

  predicate NonePresented(visits: seq<Visit>) {
    forall i :: 0 <= i < |visits| ==> visits[i].None?
  }

  /** A bundle id names one bundle: the sender's side of the contract. */
  ghost predicate IdsDetermine(visits: seq<Visit>) {
    forall a, b :: PresentedIn(a, visits) && PresentedIn(b, visits) && a.bundleId == b.bundleId ==> a == b
  }

  predicate Dated(host: Host, b: Bundle) { host.parseDate(b.generatedAt).Some? }

  /** Every bundle has a parseable time: validation sees to that. */
  ghost predicate AllDated(host: Host, visits: seq<Visit>) {
    forall b :: PresentedIn(b, visits) ==> Dated(host, b)
  }

  function Time(host: Host, b: Bundle): int {
    var t := host.parseDate(b.generatedAt);
    if t.Some? then t.value else 0
  }

  /** The last presented of the bundles with the greatest time. */
  ghost predicate LastLatest(host: Host, visits: seq<Visit>, b: Bundle) {
    exists k :: PresentedAt(b, visits, k) && NoneLater(host, visits, b, k)
  }

  ghost predicate NoneLater(host: Host, visits: seq<Visit>, b: Bundle, k: int) {
    forall j, c :: PresentedAt(c, visits, j) ==> if j <= k then Time(host, c) <= Time(host, b) else Time(host, c) < Time(host, b)
  }

  /** The part of a manifest that the bundle alone determines, and with the files what of a state does. */
  datatype Core = Core(bundleId: Text, generatedAt: Text, contentHash: Text, sourceInstanceId: Text)
  datatype Content = Content(core: Option<Core>, files: map<DimKey, Value>)

  function CoreOf(m: Manifest): Core { Core(m.bundleId, m.generatedAt, m.contentHash, m.sourceInstanceId) }

  function ContentOf(s: State): Content {
    Content(if s.manifest.Some? then Some(CoreOf(s.manifest.value)) else None, s.files)
  }

  function ContentOfBundle(host: Host, b: Bundle): Content {
    Content(Some(Core(b.bundleId, b.generatedAt, host.hashOf(b.dims), b.generatedBy)), FilesOf(b.dims))
  }

  /** The state is that of the bundle `b`, up to the time, statuses and warnings of its landing. */
  predicate Represents(host: Host, s: State, b: Bundle) {
    ContentOf(s) == ContentOfBundle(host, b)
  }

  lemma ConfrontOlder(host: Host, s: State, was: Bundle, a: Arrival)
    requires Represents(host, s, was)
    requires Dated(host, was) && Dated(host, a.bundle)
    requires was.bundleId == a.bundle.bundleId ==> was == a.bundle
    ensures Represents(host, Confront(host, s, a).0, if Time(host, a.bundle) < Time(host, was) then was else a.bundle)
  {}

  lemma FirstLands(host: Host, a: Arrival)
    ensures Represents(host, Confront(host, EMPTY, a).0, a.bundle)
  {}

  lemma FrontPresents(visits: seq<Visit>, b: Bundle)
    requires visits != [] && PresentedIn(b, visits[..|visits| - 1])
    ensures PresentedIn(b, visits)
  {
    var i :| PresentedAt(b, visits[..|visits| - 1], i);
    assert PresentedAt(b, visits, i);
  }

  lemma FrontKeepsContract(host: Host, visits: seq<Visit>)
    requires visits != [] && IdsDetermine(visits) && AllDated(host, visits)
    ensures IdsDetermine(visits[..|visits| - 1])
    ensures AllDated(host, visits[..|visits| - 1])
  {
    forall b | PresentedIn(b, visits[..|visits| - 1]) ensures PresentedIn(b, visits) {
      FrontPresents(visits, b);
    }
    hide PresentedIn;
  }

  /** The winner of a run one visit longer. */
  lemma LastLatestGrows(host: Host, visits: seq<Visit>, was: Bundle)
    requires visits != [] && LastLatest(host, visits[..|visits| - 1], was)
    ensures var last := visits[|visits| - 1];
      LastLatest(host, visits, if last.None? || Time(host, last.value.bundle) < Time(host, was) then was else last.value.bundle)
  {
    var front, last := visits[..|visits| - 1], visits[|visits| - 1];
    var k :| PresentedAt(was, front, k) && NoneLater(host, front, was, k);
    forall j, c | PresentedAt(c, visits, j) ensures j == |front| || PresentedAt(c, front, j) {}
    assert forall j, c :: PresentedAt(c, front, j) ==> Time(host, c) <= Time(host, was);
    hide Time;
    if last.None? || Time(host, last.value.bundle) < Time(host, was) {
      assert PresentedAt(was, visits, k) && NoneLater(host, visits, was, k);
    } else {
      assert PresentedAt(last.value.bundle, visits, |front|) && NoneLater(host, visits, last.value.bundle, |front|);
    }
  }

  lemma FirstIsLatest(host: Host, visits: seq<Visit>)
    requires visits != [] && visits[|visits| - 1].Some?
    requires NonePresented(visits[..|visits| - 1])
    ensures LastLatest(host, visits, visits[|visits| - 1].value.bundle)
  {
    var k, b := |visits| - 1, visits[|visits| - 1].value.bundle;
    assert forall i :: 0 <= i < k ==> visits[..k][i] == visits[i];
    assert PresentedAt(b, visits, k) && NoneLater(host, visits, b, k);
  }

  ghost predicate EndsAt(host: Host, visits: seq<Visit>, winner: Option<Bundle>) {
    match winner
    case None =>
      && Final(host, visits) == EMPTY
      && NonePresented(visits)
    case Some(b) =>
      && LastLatest(host, visits, b)
      && Represents(host, Final(host, visits), b)
  }

  /** Whatever order and however often bundles are presented, the disk ends up with the last
      presented of the latest bundles. */
  lemma {:induction false} EndsAtLastLatest(host: Host, visits: seq<Visit>) returns (winner: Option<Bundle>)
    requires IdsDetermine(visits) && AllDated(host, visits)
    ensures EndsAt(host, visits, winner)
  {
    if visits == [] { return None; }
    var front, last := visits[..|visits| - 1], visits[|visits| - 1];
    FrontKeepsContract(host, visits);
    var was := EndsAtLastLatest(host, front);
    if was.Some? {
      WinnerMoves(host, visits, was.value);
      return if last.None? || Time(host, last.value.bundle) < Time(host, was.value) then was else Some(last.value.bundle);
    }
    if last.None? {
      assert forall i :: 0 <= i < |front| ==> visits[i] == front[i];
      return None;
    }
    FirstIsLatest(host, visits);
    FirstLands(host, last.value);
    return Some(last.value.bundle);
  }

  lemma WinnerMoves(host: Host, visits: seq<Visit>, was: Bundle)
    requires visits != [] && IdsDetermine(visits) && AllDated(host, visits)
    requires EndsAt(host, visits[..|visits| - 1], Some(was))
    ensures var last := visits[|visits| - 1];
      EndsAt(host, visits, Some(if last.None? || Time(host, last.value.bundle) < Time(host, was) then was else last.value.bundle))
  {
    var front, last := visits[..|visits| - 1], visits[|visits| - 1];
    LastLatestGrows(host, visits, was);
    assert PresentedIn(was, front);
    FrontPresents(visits, was);
    if last.Some? {
      assert PresentedAt(last.value.bundle, visits, |front|);
      hide LastLatest, Represents, Confront, Time, PresentedAt;
      ConfrontOlder(host, Final(host, front), was, last.value);
    }
  }

  // ----- When the order does not matter -----

  ghost predicate SameBundles(xs: seq<Visit>, ys: seq<Visit>) {
    forall b :: PresentedIn(b, xs) <==> PresentedIn(b, ys)
  }

  /** Equal but for the time, statuses and warnings of the landing. */
  predicate Agree(s: State, t: State) {
    ContentOf(s) == ContentOf(t)
  }

  ghost predicate OrderFree(host: Host, xs: seq<Visit>) {
    forall ys :: SameBundles(xs, ys) ==> Agree(Final(host, xs), Final(host, ys))
  }

  ghost predicate Latest(host: Host, b: Bundle, xs: seq<Visit>) {
    PresentedIn(b, xs) && forall c :: PresentedIn(c, xs) ==> Time(host, c) <= Time(host, b)
  }

  ghost predicate LatestUnique(host: Host, xs: seq<Visit>) {
    forall a, b :: Latest(host, a, xs) && Latest(host, b, xs) ==> a == b
  }

  lemma LastLatestIsLatest(host: Host, xs: seq<Visit>, b: Bundle)
    requires LastLatest(host, xs, b)
    ensures Latest(host, b, xs)
  {
    hide Time;
    var k :| PresentedAt(b, xs, k) && NoneLater(host, xs, b, k);
  }

  lemma SameBundlesKeepContract(host: Host, xs: seq<Visit>, ys: seq<Visit>)
    requires IdsDetermine(xs) && AllDated(host, xs) && SameBundles(xs, ys)
    ensures IdsDetermine(ys) && AllDated(host, ys)
  {
    hide PresentedIn, Dated;
  }

  lemma SameLatest(host: Host, xs: seq<Visit>, ys: seq<Visit>, b: Bundle)
    requires SameBundles(xs, ys) && Latest(host, b, ys)
    ensures Latest(host, b, xs)
  {
    hide PresentedIn, Time;
  }

  lemma SameBundlesAgree(host: Host, xs: seq<Visit>, ys: seq<Visit>)
    requires IdsDetermine(xs) && AllDated(host, xs) && LatestUnique(host, xs) && SameBundles(xs, ys)
    ensures Agree(Final(host, xs), Final(host, ys))
  {
    SameBundlesKeepContract(host, xs, ys);
    var a := EndsAtLastLatest(host, xs);
    var b := EndsAtLastLatest(host, ys);
    if a.Some? { LastLatestIsLatest(host, xs, a.value); }
    if b.Some? {
      LastLatestIsLatest(host, ys, b.value);
      SameLatest(host, xs, ys, b.value);
    }
    hide PresentedIn, LastLatest, Time, FilesOf;
  }

  lemma PresentAgain(xs: seq<Visit>, k: nat)
    requires k < |xs|
    ensures SameBundles(xs, xs + [xs[k]])
  {
    var ys := xs + [xs[k]];
    forall b ensures PresentedIn(b, xs) <==> PresentedIn(b, ys) {
      if PresentedIn(b, xs) {
        var i :| PresentedAt(b, xs, i);
        assert PresentedAt(b, ys, i);
      }
      if PresentedIn(b, ys) {
        var i :| PresentedAt(b, ys, i);
        assert PresentedAt(b, xs, if i < |xs| then i else k);
      }
    }
  }

  /** Presenting a latest bundle once more ends at it. */
  lemma PresentLatestAgain(host: Host, xs: seq<Visit>, b: Bundle) returns (k: nat)
    requires IdsDetermine(xs) && AllDated(host, xs) && Latest(host, b, xs)
    ensures k < |xs|
    ensures SameBundles(xs, xs + [xs[k]])
    ensures Represents(host, Final(host, xs + [xs[k]]), b)
  {
    var i :| PresentedAt(b, xs, i);
    k := i;
    var ys := xs + [xs[k]];
    PresentAgain(xs, k);
    SameBundlesKeepContract(host, xs, ys);
    assert PresentedAt(b, ys, |xs|);
    hide Represents, Final, SameBundles, Time;
    var winner := EndsAtLastLatest(host, ys);
    assert PresentedIn(b, ys);
    OnlyWinner(host, ys, winner.value, b);
  }

  lemma OnlyWinner(host: Host, ys: seq<Visit>, winner: Bundle, b: Bundle)
    requires LastLatest(host, ys, winner) && ys != [] && PresentedAt(b, ys, |ys| - 1)
    requires Time(host, winner) <= Time(host, b)
    ensures winner == b
  {
    hide Time;
    var k :| PresentedAt(winner, ys, k) && NoneLater(host, ys, winner, k);
  }

  /** Every order and every repetition of the same bundles ends alike exactly if no two of them
      share the greatest time. */
  lemma ConvergesExactly(host: Host, xs: seq<Visit>)
    requires IdsDetermine(xs) && AllDated(host, xs)
    ensures OrderFree(host, xs) <==> LatestUnique(host, xs)
  {
    hide IdsDetermine, AllDated, Latest, SameBundles, Agree, Final;
    if LatestUnique(host, xs) {
      forall ys | SameBundles(xs, ys) ensures Agree(Final(host, xs), Final(host, ys)) {
        SameBundlesAgree(host, xs, ys);
      }
    }
    if OrderFree(host, xs) {
      forall a, b | Latest(host, a, xs) && Latest(host, b, xs) ensures a == b {
        OrderFreeLatest(host, xs, a, b);
      }
    }
  }

  lemma OrderFreeLatest(host: Host, xs: seq<Visit>, a: Bundle, b: Bundle)
    requires IdsDetermine(xs) && AllDated(host, xs) && OrderFree(host, xs)
    requires Latest(host, a, xs) && Latest(host, b, xs)
    ensures a == b
  {
    var k := PresentLatestAgain(host, xs, a);
    var l := PresentLatestAgain(host, xs, b);
    assert PresentedIn(a, xs) && PresentedIn(b, xs);
    hide Final, PresentedIn, SameBundles, Latest, AllDated;
    assert Agree(Final(host, xs), Final(host, xs + [xs[k]]));
    assert Agree(Final(host, xs), Final(host, xs + [xs[l]]));
  }

  // ----- Single runs -----

  /** The applied time never goes back, whatever is presented. */
  lemma TimeNeverDecreases(host: Host, s: State, a: Arrival)
    requires s.manifest.Some? && host.parseDate(s.manifest.value.generatedAt).Some? && Dated(host, a.bundle)
    ensures var after := Confront(host, s, a).0.manifest;
      && after.Some? && host.parseDate(after.value.generatedAt).Some?
      && host.parseDate(s.manifest.value.generatedAt).value <= host.parseDate(after.value.generatedAt).value
  {}

  ghost predicate OneWarningMore(m: Manifest, n: Manifest) {
    exists w :: w in {ContentHashDiffers, SourceInstanceDiffers} && n == m.(warnings := m.warnings + [w])
  }

  /** A run lands the bundle, or leaves the disk as it was but for at most one warning more. */
  lemma LandsOrKeeps(host: Host, s: State, a: Arrival)
    ensures var (after, outcome) := Confront(host, s, a);
      match outcome
      case Landed(id) => Represents(host, after, a.bundle)
      case WarningStale(_) =>
        after.files == s.files && s.manifest.Some? && after.manifest.Some? && OneWarningMore(s.manifest.value, after.manifest.value)
      case _ => after == s
  {
    hide FilesOf;
    if s.manifest.Some? {
      var cmp := Compare(host, a.bundle, s.manifest.value);
      if cmp.Ignore? && cmp.warning.Some? {
        var w, m := cmp.warning.value, s.manifest.value;
        assert w in {ContentHashDiffers, SourceInstanceDiffers};
        assert OneWarningMore(m, m.(warnings := m.warnings + [w]));
      }
    }
  }

  /** Running again on the same bundle: after a landing or a plain refusal nothing more happens. */
  lemma RunAgain(host: Host, s: State, a: Arrival)
    ensures var (after, outcome) := Confront(host, s, a);
      var (again, second) := Confront(host, after, a);
      match outcome
      case Landed(id) => again == after && second == NoOp(id)
      case WarningStale(_) => second == outcome && again.files == after.files
      case _ => again == after && second == outcome
  {
    hide FilesOf;
  }

  function Repeat(host: Host, s: State, a: Arrival, n: nat): State {
    if n == 0 then s else Confront(host, Repeat(host, s, a, n - 1), a).0
  }

  /** But a stale bundle with other content adds a warning at each run, without bound. */
  lemma {:induction false} StaleWarningsPileUp(host: Host, s: State, a: Arrival, n: nat)
    requires Confront(host, s, a).1.WarningStale?
    ensures var t := Repeat(host, s, a, n);
      && s.manifest.Some? && t.manifest.Some? && t.files == s.files
      && |t.manifest.value.warnings| == |s.manifest.value.warnings| + n
      && Confront(host, t, a).1.WarningStale?
  {
    if n == 0 {
      LandsOrKeeps(host, s, a);
    } else {
      StaleWarningsPileUp(host, s, a, n - 1);
      var t := Repeat(host, s, a, n - 1);
      LandsOrKeeps(host, t, a);
      RunAgain(host, t, a);
      hide Confront;
    }
  }

  /** A bundle older than the applied one changes nothing but the warnings: one for another content,
      otherwise one for another sender, and none for neither. */
  lemma StaleBundle(host: Host, s: State, a: Arrival)
    requires s.manifest.Some? && a.bundle.bundleId != s.manifest.value.bundleId
    requires var t, applied := host.parseDate(a.bundle.generatedAt), host.parseDate(s.manifest.value.generatedAt);
      t.Some? && applied.Some? && t.value < applied.value
    ensures var m, b := s.manifest.value, a.bundle;
      var news := if host.hashOf(b.dims) != m.contentHash then [ContentHashDiffers]
        else if b.generatedBy != m.sourceInstanceId then [SourceInstanceDiffers] else [];
      Confront(host, s, a) == (State(Some(m.(warnings := m.warnings + news)), s.files),
                               if news == [] then IgnoredStale(b.bundleId) else WarningStale(b.bundleId))
  {
    var m := s.manifest.value;
    assert m.warnings + [] == m.warnings;
  }

  /** Any other bundle lands as it is, with the time, statuses and warnings of its landing; one that is
      applied already changes nothing. */
  lemma OtherBundle(host: Host, s: State, a: Arrival)
    requires s.manifest.Some? && a.bundle.bundleId != s.manifest.value.bundleId ==>
      var t, applied := host.parseDate(a.bundle.generatedAt), host.parseDate(s.manifest.value.generatedAt);
      t.None? || applied.None? || t.value >= applied.value
    ensures var b := a.bundle;
      Confront(host, s, a) ==
        if s.manifest.Some? && b.bundleId == s.manifest.value.bundleId then (s, NoOp(b.bundleId))
        else (State(Some(Manifest(b.bundleId, b.generatedAt, host.hashOf(b.dims), b.generatedBy, a.now, a.dims, a.warnings)),
                    map[Company := b.dims.company, Model := b.dims.model, Keys := b.dims.keys,
                        Employees := b.dims.employees, Project := b.dims.project]), Landed(b.bundleId))
  {}
}
