/** What every run of the mirror store keeps: its counter, its keys, and its failure detector. */
module MirrorLaws {
  import opened MirrorStore
  import opened Wrappers

  // ----- Invariants -----

  ghost predicate DistinctKeys<V>(slots: seq<Slot<V>>) {
    forall i, j :: 0 <= i < j < |slots| ==> slots[i].key != slots[j].key
  }

  /** A stored task: under the key of its node and id, with a used version and a short summary. */
  predicate TaskOk(slot: Slot<Task>, versions: nat) {
    && slot.key == BuildKey(slot.value.nodeId, slot.value.taskId)
    && 1 <= slot.value.version <= versions
    && |slot.value.summary| <= MAX_SUMMARY_LENGTH
  }

  ghost predicate TasksOk(tasks: seq<Slot<Task>>, versions: nat) {
    forall i, j :: 0 <= i <= j < |tasks| ==>
      TaskOk(tasks[i], versions) && (i < j ==> Apart(tasks[i], tasks[j]))
  }

  predicate Apart(x: Slot<Task>, y: Slot<Task>) { x.key != y.key && x.value.version != y.value.version }

  /** A node that is unknown has not yet beaten twice. */
  ghost predicate BeatsOk(beats: seq<Slot<Beat>>) {
    forall i, j :: 0 <= i <= j < |beats| ==>
      BeatOk(beats[i]) && (i < j ==> beats[i].key != beats[j].key)
  }

  predicate BeatOk(slot: Slot<Beat>) { slot.value.unknown ==> slot.value.consecutive <= 1 }

  ghost predicate Valid(s: Store) {
    && TasksOk(s.tasks, s.versions)
    && BeatsOk(s.beats)
  }

  // ----- Marking -----

  function ActiveCount(tasks: seq<Slot<Task>>, nodeId: string): nat {
    if tasks == [] then 0
    else ActiveCount(tasks[..|tasks| - 1], nodeId) + (if Active(tasks[|tasks| - 1].value, nodeId) then 1 else 0)
  }

  lemma {:induction false} MarkedCounter(tasks: seq<Slot<Task>>, nodeId: string, iso: string, versions: nat)
    ensures Marked(tasks, nodeId, iso, versions).1 == versions + ActiveCount(tasks, nodeId)
  {
    if tasks != [] {
      MarkedCounter(tasks[..|tasks| - 1], nodeId, iso, versions);
    }
  }

  lemma {:induction false} MarkedPlace(tasks: seq<Slot<Task>>, nodeId: string, iso: string, versions: nat, i: nat)
    requires i < |tasks|
    ensures Marked(tasks, nodeId, iso, versions).0[i]
      == MarkSlot(tasks[i], nodeId, iso, versions + ActiveCount(tasks[..i], nodeId))
  {
    var front := tasks[..|tasks| - 1];
    if i < |front| {
      MarkedPlace(front, nodeId, iso, versions, i);
      assert front[..i] == tasks[..i];
    } else {
      MarkedCounter(front, nodeId, iso, versions);
    }
  }

  lemma {:induction false} ActiveCountGrows(tasks: seq<Slot<Task>>, nodeId: string, i: nat, j: nat)
    requires i <= j <= |tasks|
    ensures ActiveCount(tasks[..i], nodeId) <= ActiveCount(tasks[..j], nodeId)
    ensures i < j && Active(tasks[i].value, nodeId) ==> ActiveCount(tasks[..i], nodeId) < ActiveCount(tasks[..j], nodeId)
    decreases j
  {
    if i < j {
      ActiveCountGrows(tasks, nodeId, i, j - 1);
      assert tasks[..j][..j - 1] == tasks[..j - 1];
    }
  }

  /** The place of a slot tells its new version. */
  lemma MarkedSlot(s: Store, nodeId: string, iso: string, i: nat)
    requires i < |s.tasks|
    ensures MarkNode(s, nodeId, iso).tasks[i]
      == MarkSlot(s.tasks[i], nodeId, iso, s.versions + ActiveCount(s.tasks[..i], nodeId))
    ensures s.versions + ActiveCount(s.tasks[..i], nodeId) <= MarkNode(s, nodeId, iso).versions
    ensures Active(s.tasks[i].value, nodeId) ==>
      s.versions + ActiveCount(s.tasks[..i], nodeId) < MarkNode(s, nodeId, iso).versions
  {
    hide Marked, ActiveCount, MarkSlot;
    MarkedPlace(s.tasks, nodeId, iso, s.versions, i);
    MarkedCounter(s.tasks, nodeId, iso, s.versions);
    assert s.tasks[..|s.tasks|] == s.tasks;
    ActiveCountGrows(s.tasks, nodeId, i, |s.tasks|);
  }

  lemma MarkedVersionsDiffer(s: Store, nodeId: string, iso: string, i: nat, j: nat)
    requires TasksOk(s.tasks, s.versions) && i < j < |s.tasks|
    ensures |MarkNode(s, nodeId, iso).tasks| == |s.tasks|
    ensures MarkNode(s, nodeId, iso).tasks[i].value.version != MarkNode(s, nodeId, iso).tasks[j].value.version
  {
    hide Marked, ActiveCount;
    MarkedSlot(s, nodeId, iso, i);
    MarkedSlot(s, nodeId, iso, j);
    ActiveCountGrows(s.tasks, nodeId, i, j);
    assert TaskOk(s.tasks[i], s.versions) && TaskOk(s.tasks[j], s.versions);
  }

  /** Marking turns all and only the node's non-terminal tasks unknown, each with its own fresh
      version, and raises the counter by their number. */
  lemma MarkNodeLaws(s: Store, nodeId: string, iso: string)
    requires TasksOk(s.tasks, s.versions)
    ensures var m := MarkNode(s, nodeId, iso);
      && TasksOk(m.tasks, m.versions) && m.beats == s.beats && |m.tasks| == |s.tasks|
      && m.versions == s.versions + ActiveCount(s.tasks, nodeId)
      && forall i :: 0 <= i < |s.tasks| ==>
           if Active(s.tasks[i].value, nodeId) then TurnedUnknown(s.tasks[i], m.tasks[i], iso, s.versions)
           else m.tasks[i] == s.tasks[i]
  {
    hide Marked, ActiveCount;
    var m := MarkNode(s, nodeId, iso);
    MarkedCounter(s.tasks, nodeId, iso, s.versions);
    assert m.beats == s.beats && |m.tasks| == |s.tasks| && m.versions == s.versions + ActiveCount(s.tasks, nodeId);
    hide MarkNode;
    forall i | 0 <= i < |s.tasks|
      ensures TaskOk(m.tasks[i], m.versions) && m.tasks[i].key == s.tasks[i].key
      ensures if Active(s.tasks[i].value, nodeId) then TurnedUnknown(s.tasks[i], m.tasks[i], iso, s.versions)
              else m.tasks[i] == s.tasks[i]
    {
      MarkedSlot(s, nodeId, iso, i);
      assert TaskOk(s.tasks[i], s.versions);
    }
    forall i, j | 0 <= i < j < |s.tasks| ensures m.tasks[i].value.version != m.tasks[j].value.version {
      MarkedVersionsDiffer(s, nodeId, iso, i, j);
    }
  }

  predicate TurnedUnknown(was: Slot<Task>, later: Slot<Task>, iso: string, versions: nat) {
    && later.value.version > versions
    && later == Slot(was.key, was.value.(status := Unknown, updatedAt := iso, version := later.value.version))
  }

  // ----- Scanning -----

  /** Some node among the first `k` is marked by the scan, and the task is its. */
  predicate MarkedBy(s: Store, nodeId: string, stale: int, degraded: int, now: int, k: nat)
    requires k <= |s.beats|
  {
    exists j :: 0 <= j < k && s.beats[j].key == nodeId && Marks(s.beats[j].value, stale, degraded, now)
  }

  function MarkCount(beats: seq<Slot<Beat>>, stale: int, degraded: int, now: int): nat {
    if beats == [] then 0
    else MarkCount(beats[..|beats| - 1], stale, degraded, now)
         + (if Marks(beats[|beats| - 1].value, stale, degraded, now) then 1 else 0)
  }

  predicate SlotAfterScan(s: Store, was: Slot<Task>, later: Slot<Task>, stale: int, degraded: int, now: Instant, k: nat)
    requires k <= |s.beats|
  {
    if !Terminal(was.value.status) && MarkedBy(s, was.value.nodeId, stale, degraded, now.ms, k)
    then TurnedUnknown(was, later, now.iso, s.versions)
    else later == was
  }

  predicate BeatAfterScan(was: Slot<Beat>, later: Slot<Beat>, stale: int, degraded: int, now: int) {
    later == if Marks(was.value, stale, degraded, now) then Slot(was.key, MarkedBeat(was.value)) else was
  }

  ghost predicate ScanState(s: Store, r: Store, stale: int, degraded: int, now: Instant, k: nat)
    requires k <= |s.beats|
  {
    && TasksOk(r.tasks, r.versions)
    && r.versions >= s.versions
    && (|r.tasks|, |r.beats|) == (|s.tasks|, |s.beats|)
    && (forall i :: 0 <= i < |s.tasks| ==>
          SlotAfterScan(s, s.tasks[i], r.tasks[i], stale, degraded, now, k))
    && (forall j :: 0 <= j < k ==>
          BeatAfterScan(s.beats[j], r.beats[j], stale, degraded, now.ms))
  }

  lemma ScanStep(s: Store, r: Store, stale: int, degraded: int, now: Instant, k: nat)
    requires k < |s.beats| && ScanState(s, r, stale, degraded, now, k)
    requires forall j :: k <= j < |s.beats| ==> r.beats[j] == s.beats[j]
    ensures var slot := s.beats[k];
      var next := if Marks(slot.value, stale, degraded, now.ms)
        then MarkNode(r, slot.key, now.iso).(beats := r.beats[k := Slot(slot.key, MarkedBeat(slot.value))])
        else r;
      ScanState(s, next, stale, degraded, now, k + 1)
  {
    var slot := s.beats[k];
    var m := MarkNode(r, slot.key, now.iso);
    MarkNodeLaws(r, slot.key, now.iso);
    hide TasksOk, SlotAfterScan, MarkNode;
    forall i | 0 <= i < |s.tasks|
      ensures SlotAfterScan(s, s.tasks[i],
        if Marks(slot.value, stale, degraded, now.ms) then m.tasks[i] else r.tasks[i], stale, degraded, now, k + 1)
    {
      assert SlotAfterScan(s, s.tasks[i], r.tasks[i], stale, degraded, now, k);
      SlotScanStep(s, s.tasks[i], r.tasks[i], m.tasks[i], r.versions, stale, degraded, now, k);
    }
  }

  /** One task while node `k` is scanned. */
  lemma SlotScanStep(s: Store, was: Slot<Task>, mid: Slot<Task>, after: Slot<Task>, versions: nat,
                     stale: int, degraded: int, now: Instant, k: nat)
    requires k < |s.beats| && versions >= s.versions
    requires SlotAfterScan(s, was, mid, stale, degraded, now, k)
    requires if Active(mid.value, s.beats[k].key) then TurnedUnknown(mid, after, now.iso, versions) else after == mid
    ensures SlotAfterScan(s, was, if Marks(s.beats[k].value, stale, degraded, now.ms) then after else mid,
                          stale, degraded, now, k + 1)
  {
    MarkedByNext(s, was.value.nodeId, stale, degraded, now.ms, k);
    hide MarkedBy, Marks;
  }

  lemma MarkedByNext(s: Store, nodeId: string, stale: int, degraded: int, now: int, k: nat)
    requires k < |s.beats|
    ensures MarkedBy(s, nodeId, stale, degraded, now, k + 1) <==>
      MarkedBy(s, nodeId, stale, degraded, now, k)
      || (s.beats[k].key == nodeId && Marks(s.beats[k].value, stale, degraded, now))
  {}

  lemma {:induction false} ScannedLaws(s: Store, stale: int, degraded: int, now: Instant, k: nat)
    requires TasksOk(s.tasks, s.versions) && k <= |s.beats|
    ensures var (r, marked) := Scanned(s, stale, degraded, now, k);
      && ScanState(s, r, stale, degraded, now, k)
      && marked == MarkCount(s.beats[..k], stale, degraded, now.ms)
  {
    if k > 0 {
      ScannedLaws(s, stale, degraded, now, k - 1);
      assert s.beats[..k][..k - 1] == s.beats[..k - 1];
      hide ScanState;
      ScanStep(s, Scanned(s, stale, degraded, now, k - 1).0, stale, degraded, now, k - 1);
    }
  }

  /** After a scan every node is unknown or was seen within its state's threshold; a node is newly
      marked exactly if it was known and overdue, and with it exactly its non-terminal tasks. */
  lemma ScanLaws(s: Store, stale: int, degraded: int, now: Instant)
    requires Valid(s)
    ensures var (r, marked) := Scan(s, stale, degraded, now);
      && Valid(r)
      && ScanState(s, r, stale, degraded, now, |s.beats|)
      && marked == MarkCount(s.beats, stale, degraded, now.ms)
      && forall j :: 0 <= j < |r.beats| ==>
           r.beats[j].value.unknown || !Overdue(r.beats[j].value, stale, degraded, now.ms)
  {
    ScannedLaws(s, stale, degraded, now, |s.beats|);
    assert s.beats[..|s.beats|] == s.beats;
    var r := Scan(s, stale, degraded, now).0;
    forall j | 0 <= j < |r.beats| ensures BeatAfterScan(s.beats[j], r.beats[j], stale, degraded, now.ms) {}
  }

  // ----- Mirroring -----

  lemma FindUnique<V>(slots: seq<Slot<V>>, i: nat)
    requires DistinctKeys(slots) && i < |slots|
    ensures Find(slots, slots[i].key) == i
  {}

  lemma MirrorOneLaws(s: Store, nodeId: string, r: Report, now: Instant)
    requires TasksOk(s.tasks, s.versions)
    ensures var (t, n) := MirrorOne(s, nodeId, r, now);
      && TasksOk(t.tasks, t.versions) && t.beats == s.beats && t.versions == s.versions + n
      && |s.tasks| <= |t.tasks|
      && forall i :: 0 <= i < |s.tasks| && s.tasks[i].key != BuildKey(nodeId, r.taskId) ==> t.tasks[i] == s.tasks[i]
  {
    var key := BuildKey(nodeId, r.taskId);
    var i := Find(s.tasks, key);
    if i >= 0 {
      var next := MirrorOne(s, nodeId, r, now).0.tasks[i];
      assert TaskOk(s.tasks[i], s.versions);
      var v := MirrorOne(s, nodeId, r, now).0.versions;
      hide MirrorOne, Summary, Changed;
      TasksOkUpdate(s.tasks, s.versions, i, next, v);
    }
  }

  /** Replacing a task by one with its key and its own or a new version keeps the tasks in order. */
  lemma TasksOkUpdate(tasks: seq<Slot<Task>>, versions: nat, i: nat, slot: Slot<Task>, v: nat)
    requires TasksOk(tasks, versions) && i < |tasks| && versions <= v && TaskOk(slot, v)
    requires slot.key == tasks[i].key
    requires slot.value.version == tasks[i].value.version || slot.value.version > versions
    ensures TasksOk(tasks[i := slot], v)
  {}

  lemma {:induction false} PushLaws(s: Store, nodeId: string, reports: seq<Report>, now: Instant)
    requires Valid(s)
    ensures var (t, n) := Mirror(s, nodeId, reports, now);
      && Valid(t)
      && (t.beats, t.versions) == (s.beats, s.versions + n)
      && |s.tasks| <= |t.tasks|
  {
    if reports != [] {
      hide TasksOk, MirrorOne;
      var front := reports[..|reports| - 1];
      PushLaws(s, nodeId, front, now);
      MirrorOneLaws(Mirror(s, nodeId, front, now).0, nodeId, reports[|reports| - 1], now);
    }
  }

  // ----- Whole runs -----

  datatype Op =
    | Beats(nodeId: string, state: string, now: int)
    | Scans(stale: int, degraded: int, at: Instant)
    | Mirrors(nodeId: string, reports: seq<Report>, at: Instant)
    | MarksNode(nodeId: string, at: Instant)
    | Cleans(maxAge: int, now: int)

  function Apply(s: Store, op: Op): Store {
    match op
    case Beats(n, state, now) => Heartbeat(s, n, state, now)
    case Scans(stale, degraded, at) => Scan(s, stale, degraded, at).0
    case Mirrors(n, reports, at) => Mirror(s, n, reports, at).0
    case MarksNode(n, at) => MarkNode(s, n, at.iso)
    case Cleans(maxAge, now) => s.(tasks := Kept(s.tasks, maxAge, now))
  }

  function RunFrom(s: Store, ops: seq<Op>): Store {
    if ops == [] then s else Apply(RunFrom(s, ops[..|ops| - 1]), ops[|ops| - 1])
  }

  lemma HeartbeatLaws(s: Store, nodeId: string, state: string, now: int)
    requires Valid(s)
    ensures Valid(Heartbeat(s, nodeId, state, now))
  {
    hide TasksOk;
  }

  lemma {:induction false} KeptMembers(tasks: seq<Slot<Task>>, maxAge: int, now: int)
    ensures forall x :: x in Kept(tasks, maxAge, now) <==> x in tasks && !Expired(x.value, maxAge, now)
  {
    if tasks != [] {
      var front, last := tasks[..|tasks| - 1], tasks[|tasks| - 1];
      KeptMembers(front, maxAge, now);
      assert forall x :: x in tasks <==> x in front || x == last;
    }
  }

  ghost predicate AllApart(tasks: seq<Slot<Task>>) {
    forall i, j :: 0 <= i < j < |tasks| ==> Apart(tasks[i], tasks[j])
  }

  lemma {:induction false} KeptApart(tasks: seq<Slot<Task>>, maxAge: int, now: int)
    requires AllApart(tasks)
    ensures AllApart(Kept(tasks, maxAge, now))
  {
    if tasks != [] {
      var front, last := tasks[..|tasks| - 1], tasks[|tasks| - 1];
      assert AllApart(front);
      KeptApart(front, maxAge, now);
      KeptMembers(front, maxAge, now);
      var kept := Kept(front, maxAge, now);
      forall i | 0 <= i < |kept| ensures Apart(kept[i], last) {
        assert kept[i] in front;
        var k :| 0 <= k < |front| && front[k] == kept[i];
        assert tasks[k] == kept[i] && Apart(tasks[k], tasks[|tasks| - 1]);
      }
    }
  }

  /** Cleanup keeps exactly the tasks that are not expired. */
  lemma KeptLaws(tasks: seq<Slot<Task>>, maxAge: int, now: int, versions: nat)
    requires TasksOk(tasks, versions)
    ensures var kept := Kept(tasks, maxAge, now);
      TasksOk(kept, versions) && forall x :: x in kept <==> x in tasks && !Expired(x.value, maxAge, now)
  {
    forall i, j | 0 <= i < j < |tasks| ensures Apart(tasks[i], tasks[j]) {}
    KeptApart(tasks, maxAge, now);
    KeptMembers(tasks, maxAge, now);
    var kept := Kept(tasks, maxAge, now);
    forall i | 0 <= i < |kept| ensures TaskOk(kept[i], versions) {
      assert kept[i] in tasks;
    }
    forall i, j | 0 <= i < j < |kept| ensures kept[i].key != kept[j].key && kept[i].value.version != kept[j].value.version {
      assert Apart(kept[i], kept[j]);
    }
  }

  lemma ApplyKeepsValid(s: Store, op: Op)
    requires Valid(s)
    ensures Valid(Apply(s, op))
  {
    match op
    case Beats(n, state, now) => HeartbeatLaws(s, n, state, now);
    case Scans(stale, degraded, at) => ScanLaws(s, stale, degraded, at);
    case Mirrors(n, reports, at) => PushLaws(s, n, reports, at);
    case MarksNode(n, at) => MarkNodeLaws(s, n, at.iso);
    case Cleans(maxAge, now) => KeptLaws(s.tasks, maxAge, now, s.versions);
  }

  /** After any run from a valid store, the empty one for a start, task versions are distinct and used
      up to the counter, summaries are short, every task sits under its own key, and unknown nodes
      beat at most once. */
  lemma {:induction false} RunKeepsValid(s: Store, ops: seq<Op>)
    requires Valid(s)
    ensures Valid(RunFrom(s, ops))
  {
    if ops != [] {
      RunKeepsValid(s, ops[..|ops| - 1]);
      hide Valid, Apply;
      ApplyKeepsValid(RunFrom(s, ops[..|ops| - 1]), ops[|ops| - 1]);
    }
  }

  lemma EmptyIsValid()
    ensures Valid(EMPTY)
  {}

  // ----- Recovery -----

  function BeatOf(s: Store, nodeId: string): Option<Beat> {
    var i := Find(s.beats, nodeId);
    if i < 0 then None else Some(s.beats[i].value)
  }

  function HeartbeatsOf(ops: seq<Op>, nodeId: string): nat {
    if ops == [] then 0
    else
      var last := ops[|ops| - 1];
      HeartbeatsOf(ops[..|ops| - 1], nodeId) + (if last.Beats? && last.nodeId == nodeId then 1 else 0)
  }

  lemma HeartbeatEffect(s: Store, nodeId: string, state: string, now: int, other: string)
    requires DistinctKeys(s.beats)
    ensures BeatOf(Heartbeat(s, nodeId, state, now), other) ==
      if other != nodeId then BeatOf(s, other)
      else if BeatOf(s, nodeId).None? then Some(FirstBeat(state, now))
      else Some(NextBeat(BeatOf(s, nodeId).value, state, now))
  {
    var t := Heartbeat(s, nodeId, state, now);
    var i, j := Find(s.beats, nodeId), Find(s.beats, other);
    var k := Find(t.beats, other);
    assert DistinctKeys(t.beats);
    if j >= 0 {
      assert t.beats[j].key == other;
      FindUnique(t.beats, j);
    }
    if other == nodeId && i < 0 {
      FindUnique(t.beats, |s.beats|);
    }
  }

  lemma ScanSparesUnknown(s: Store, stale: int, degraded: int, now: Instant, nodeId: string)
    requires Valid(s) && BeatOf(s, nodeId).Some? && BeatOf(s, nodeId).value.unknown
    ensures BeatOf(Scan(s, stale, degraded, now).0, nodeId) == BeatOf(s, nodeId)
  {
    ScanLaws(s, stale, degraded, now);
    var r := Scan(s, stale, degraded, now).0;
    hide Scan, TasksOk;
    var j := Find(s.beats, nodeId);
    assert BeatAfterScan(s.beats[j], r.beats[j], stale, degraded, now.ms);
    FindUnique(r.beats, j);
  }

  lemma OtherOpsSpareUnknown(s: Store, op: Op, nodeId: string)
    requires Valid(s) && BeatOf(s, nodeId).Some? && BeatOf(s, nodeId).value.unknown
    requires !(op.Beats? && op.nodeId == nodeId)
    ensures BeatOf(Apply(s, op), nodeId) == BeatOf(s, nodeId)
  {
    match op
    case Beats(n, state, now) => HeartbeatEffect(s, n, state, now, nodeId);
    case Scans(stale, degraded, at) => ScanSparesUnknown(s, stale, degraded, at, nodeId);
    case Mirrors(n, reports, at) => PushLaws(s, n, reports, at);
    case MarksNode(n, at) =>
    case Cleans(maxAge, now) =>
  }

  /** A node just marked stays unknown through whatever happens until its second heartbeat. */
  lemma {:induction false} UnknownUntilSecond(s: Store, ops: seq<Op>, nodeId: string)
    requires Valid(s) && BeatOf(s, nodeId).Some?
    requires BeatOf(s, nodeId).value.unknown && BeatOf(s, nodeId).value.consecutive == 0
    requires HeartbeatsOf(ops, nodeId) <= 1
    ensures var b := BeatOf(RunFrom(s, ops), nodeId);
      && b.Some?
      && (b.value.unknown, b.value.consecutive) == (true, HeartbeatsOf(ops, nodeId))
  {
    if ops != [] {
      var front, op := ops[..|ops| - 1], ops[|ops| - 1];
      UnknownUntilSecond(s, front, nodeId);
      RunKeepsValid(s, front);
      var t := RunFrom(s, front);
      hide Valid, RunFrom, BeatOf, Apply;
      if op.Beats? && op.nodeId == nodeId {
        BeatStep(t, op, nodeId);
      } else {
        OtherOpsSpareUnknown(t, op, nodeId);
      }
      RunFromNext(s, ops);
    }
  }

  lemma RunFromNext(s: Store, ops: seq<Op>)
    requires ops != []
    ensures RunFrom(s, ops) == Apply(RunFrom(s, ops[..|ops| - 1]), ops[|ops| - 1])
  {}

  lemma BeatStep(s: Store, op: Op, nodeId: string)
    requires Valid(s) && op.Beats? && op.nodeId == nodeId && BeatOf(s, nodeId).Some?
    ensures BeatOf(Apply(s, op), nodeId) == Some(NextBeat(BeatOf(s, nodeId).value, op.state, op.now))
  {
    HeartbeatEffect(s, nodeId, op.state, op.now, nodeId);
  }

  /** The second heartbeat makes it known again, whatever scans came between. */
  lemma RecoversAtSecond(s: Store, ops: seq<Op>, nodeId: string)
    requires Valid(s) && BeatOf(s, nodeId).Some?
    requires BeatOf(s, nodeId).value.unknown && BeatOf(s, nodeId).value.consecutive == 0
    requires ops != [] && ops[|ops| - 1].Beats? && ops[|ops| - 1].nodeId == nodeId
    requires HeartbeatsOf(ops, nodeId) == 2
    ensures var b := BeatOf(RunFrom(s, ops), nodeId);
      && b.Some?
      && (b.value.unknown, b.value.consecutive) == (false, 0)
  {
    var front := ops[..|ops| - 1];
    UnknownUntilSecond(s, front, nodeId);
    RunKeepsValid(s, front);
    BeatStep(RunFrom(s, front), ops[|ops| - 1], nodeId);
  }

  // ----- Keys -----

  predicate NestedIn(inner: string, outer: string) { outer + ":" <= inner }

  /** Tasks of two nodes can share a key exactly if one node id continues the other with a colon. */
  lemma KeysCollideExactly(n: string, m: string)
    requires n != m
    ensures (exists t, u :: BuildKey(n, t) == BuildKey(m, u)) <==> NestedIn(n, m) || NestedIn(m, n)
  {
    if t, u :| BuildKey(n, t) == BuildKey(m, u) {
      KeyShape(n, t, m, u);
    }
    if NestedIn(n, m) {
      var rest := n[|m| + 1..];
      assert n == m + ":" + rest;
      assert BuildKey(n, "") == BuildKey(m, rest + ":" + "");
    }
    if NestedIn(m, n) {
      var rest := m[|n| + 1..];
      assert m == n + ":" + rest;
      assert BuildKey(n, rest + ":" + "") == BuildKey(m, "");
    }
  }

  lemma KeyShape(n: string, t: string, m: string, u: string)
    requires BuildKey(n, t) == BuildKey(m, u)
    ensures n == m ==> t == u
    ensures n != m ==> NestedIn(n, m) || NestedIn(m, n)
  {
    var k := BuildKey(n, t);
    assert n == k[..|n|] && m == k[..|m|];
    assert k[|n|] == ':' && k[|m|] == ':';
    assert t == k[|n| + 1..] && u == k[|m| + 1..];
    if |n| < |m| {
      assert n + ":" == k[..|n| + 1] == m[..|n| + 1];
    } else if |m| < |n| {
      assert m + ":" == k[..|m| + 1] == n[..|m| + 1];
    }
  }

  lemma ColonFreeNotNested(n: string, m: string)
    requires n != m && ':' !in n && ':' !in m
    ensures !NestedIn(n, m) && !NestedIn(m, n)
  {
    if NestedIn(n, m) { NestedHoldsColon(n, m); }
    if NestedIn(m, n) { NestedHoldsColon(m, n); }
  }

  lemma NestedHoldsColon(inner: string, outer: string)
    requires NestedIn(inner, outer)
    ensures ':' in inner
  {
    assert inner[|outer|] == ':';
  }

  /** A node's push leaves the tasks of every node with an unrelated id untouched. */
  lemma {:induction false} PushLeavesOthers(s: Store, nodeId: string, reports: seq<Report>, now: Instant, i: nat)
    requires Valid(s) && i < |s.tasks|
    requires var other := s.tasks[i].value.nodeId;
      other != nodeId && !NestedIn(other, nodeId) && !NestedIn(nodeId, other)
    ensures i < |Mirror(s, nodeId, reports, now).0.tasks|
    ensures Mirror(s, nodeId, reports, now).0.tasks[i] == s.tasks[i]
  {
    if reports != [] {
      var front, last := reports[..|reports| - 1], reports[|reports| - 1];
      PushLeavesOthers(s, nodeId, front, now, i);
      PushLaws(s, nodeId, front, now);
      var t := Mirror(s, nodeId, front, now).0;
      assert TaskOk(s.tasks[i], s.versions);
      if BuildKey(nodeId, last.taskId) == s.tasks[i].key {
        KeyShape(nodeId, last.taskId, s.tasks[i].value.nodeId, s.tasks[i].value.taskId);
      }
      MirrorOneLaws(t, nodeId, last, now);
    }
  }

  /** What a push makes of another node's entry. */
  predicate Untouched(s: Store, nodeId: string, reports: seq<Report>, now: Instant, i: nat)
    requires i < |s.tasks|
  {
    var after := Mirror(s, nodeId, reports, now).0.tasks;
    i < |after| && after[i] == s.tasks[i]
  }

  /** No push of `n`, in whatever state, touches an entry of `m`. */
  ghost predicate LeavesAlone(n: string, m: string) {
    forall s, reports, now, i: nat :: Valid(s) && i < |s.tasks| && s.tasks[i].value.nodeId == m ==>
      Untouched(s, n, reports, now, i)
  }

  lemma PushOne(s: Store, nodeId: string, r: Report, now: Instant)
    ensures Mirror(s, nodeId, [r], now) == MirrorOne(s, nodeId, r, now)
  {
    assert [r][..0] == [];
    assert Mirror(s, nodeId, [], now) == (s, 0);
  }

  lemma FirstPush(nodeId: string, r: Report, now: Instant)
    ensures var s := MirrorOne(EMPTY, nodeId, r, now).0;
      |s.tasks| == 1 && s.tasks[0].key == BuildKey(nodeId, r.taskId)
      && s.tasks[0].value.nodeId == nodeId && s.tasks[0].value.status == r.status
  {
    hide BuildKey, Summary;
  }

  lemma PushOverwrites(s: Store, nodeId: string, r: Report, now: Instant)
    requires |s.tasks| == 1 && s.tasks[0].key == BuildKey(nodeId, r.taskId) && s.tasks[0].value.status != r.status
    ensures var t := MirrorOne(s, nodeId, r, now).0; |t.tasks| == 1 && t.tasks[0] != s.tasks[0]
  {
    hide BuildKey, Summary;
    assert Find(s.tasks, BuildKey(nodeId, r.taskId)) == 0;
  }

  /** If two keys of `n` and `m` meet, a push of `n` overwrites an entry of `m`. */
  lemma MeetingKeysOverwrite(n: string, t: string, m: string, u: string)
    requires BuildKey(n, t) == BuildKey(m, u)
    ensures !LeavesAlone(n, m)
  {
    var now := Instant(0, "");
    var running, done := Report(u, "", Running, "", ""), Report(t, "", Success, "", "");
    EmptyIsValid();
    hide Valid, Mirror, MirrorOne, BuildKey;
    PushLaws(EMPTY, m, [running], now);
    PushOne(EMPTY, m, running, now);
    FirstPush(m, running, now);
    var s := Mirror(EMPTY, m, [running], now).0;
    PushOne(s, n, done, now);
    PushOverwrites(s, n, done, now);
    assert !Untouched(s, n, [done], now, 0);
  }

  /** One node's pushes leave another node's entries alone, from every valid store, exactly if
      neither id continues the other with a colon. */
  lemma PushesLeaveAloneExactly(n: string, m: string)
    requires n != m
    ensures LeavesAlone(n, m)
      <==> !NestedIn(n, m) && !NestedIn(m, n)
  {
    hide Valid, Mirror, BuildKey;
    if !NestedIn(n, m) && !NestedIn(m, n) {
      forall s, reports, now, i: nat | Valid(s) && i < |s.tasks| && s.tasks[i].value.nodeId == m
        ensures Untouched(s, n, reports, now, i)
      {
        PushLeavesOthers(s, n, reports, now, i);
      }
    } else {
      KeysCollideExactly(n, m);
      var t, u :| BuildKey(n, t) == BuildKey(m, u);
      MeetingKeysOverwrite(n, t, m, u);
    }
  }

  // ----- Pushing a batch again -----

  /** The store holds what was reported. */
  predicate Reflects(tasks: seq<Slot<Task>>, nodeId: string, r: Report) {
    var i := Find(tasks, BuildKey(nodeId, r.taskId));
    i >= 0 && !Changed(tasks[i].value, r)
  }

  /** Reports of one task in the batch agree on what they say of it. */
  predicate Agree(q: Report, r: Report) {
    q.taskId == r.taskId ==> q.status == r.status && Summary(q.summary) == Summary(r.summary) && q.title == r.title
  }

  ghost predicate AgreeAll(reports: seq<Report>, r: Report) {
    forall i :: 0 <= i < |reports| ==> Agree(reports[i], r)
  }

  ghost predicate Consistent(reports: seq<Report>) {
    forall i, j :: 0 <= i < |reports| && 0 <= j < |reports| ==> Agree(reports[i], reports[j])
  }

  /** The same slot, seen again. */
  predicate SeenAgain(was: Slot<Task>, later: Slot<Task>) {
    later == Slot(was.key, was.value.(lastSeenAt := later.value.lastSeenAt))
  }

  ghost predicate OnlySeen(was: seq<Slot<Task>>, later: seq<Slot<Task>>) {
    |was| == |later| && forall i :: 0 <= i < |was| ==> SeenAgain(was[i], later[i])
  }

  lemma FindSameKeys(was: seq<Slot<Task>>, later: seq<Slot<Task>>, key: string)
    requires |was| == |later| && forall i :: 0 <= i < |was| ==> was[i].key == later[i].key
    ensures Find(was, key) == Find(later, key)
  {}

  lemma OnlySeenReflects(was: seq<Slot<Task>>, later: seq<Slot<Task>>, nodeId: string, r: Report)
    requires OnlySeen(was, later)
    ensures Reflects(was, nodeId, r) <==> Reflects(later, nodeId, r)
  {
    forall i | 0 <= i < |was| ensures was[i].key == later[i].key { assert SeenAgain(was[i], later[i]); }
    FindSameKeys(was, later, BuildKey(nodeId, r.taskId));
    var i := Find(was, BuildKey(nodeId, r.taskId));
    if i >= 0 { assert SeenAgain(was[i], later[i]); }
  }

  /** One report: it counts exactly if the store does not hold it, and is held afterwards. */
  lemma MirrorOneReflects(s: Store, nodeId: string, r: Report, now: Instant)
    requires TasksOk(s.tasks, s.versions)
    ensures var (t, n) := MirrorOne(s, nodeId, r, now);
      && (n == 0 <==> Reflects(s.tasks, nodeId, r)) && n <= 1
      && (n == 0 ==>
            && t.versions == s.versions
            && OnlySeen(s.tasks, t.tasks))
      && Reflects(t.tasks, nodeId, r)
  {
    var key := BuildKey(nodeId, r.taskId);
    var t := MirrorOne(s, nodeId, r, now).0;
    MirrorOneLaws(s, nodeId, r, now);
    var i := Find(s.tasks, key);
    hide Summary, TaskOk;
    FindUnique(t.tasks, if i < 0 then |s.tasks| else i);
  }

  /** A held report stays held when another report agrees with it. */
  lemma MirrorOneKeepsReflection(s: Store, nodeId: string, r: Report, q: Report, now: Instant)
    requires TasksOk(s.tasks, s.versions) && Reflects(s.tasks, nodeId, q) && Agree(q, r)
    ensures Reflects(MirrorOne(s, nodeId, r, now).0.tasks, nodeId, q)
  {
    var t := MirrorOne(s, nodeId, r, now).0;
    MirrorOneReflects(s, nodeId, r, now);
    if q.taskId != r.taskId {
      MirrorOneLaws(s, nodeId, r, now);
      var k, key := BuildKey(nodeId, q.taskId), BuildKey(nodeId, r.taskId);
      if k == key { KeyShape(nodeId, q.taskId, nodeId, r.taskId); }
      var i := Find(s.tasks, k);
      assert t.tasks[i] == s.tasks[i];
      FindUnique(t.tasks, i);
    }
  }

  ghost predicate ReflectsAll(tasks: seq<Slot<Task>>, nodeId: string, reports: seq<Report>) {
    forall i :: 0 <= i < |reports| ==> Reflects(tasks, nodeId, reports[i])
  }

  lemma ReflectsAllSplit(tasks: seq<Slot<Task>>, nodeId: string, reports: seq<Report>)
    requires reports != []
    ensures ReflectsAll(tasks, nodeId, reports) <==>
      ReflectsAll(tasks, nodeId, reports[..|reports| - 1]) && Reflects(tasks, nodeId, reports[|reports| - 1])
  {
    var front := reports[..|reports| - 1];
    forall i | 0 <= i < |front| ensures front[i] == reports[i] {}
    hide Reflects;
    if ReflectsAll(tasks, nodeId, reports) {
      forall i | 0 <= i < |front| ensures Reflects(tasks, nodeId, front[i]) {
        assert Reflects(tasks, nodeId, reports[i]);
      }
    }
    if ReflectsAll(tasks, nodeId, front) && Reflects(tasks, nodeId, reports[|reports| - 1]) {
      forall i | 0 <= i < |reports| ensures Reflects(tasks, nodeId, reports[i]) {
        if i < |front| { assert Reflects(tasks, nodeId, front[i]); }
      }
    }
  }

  lemma MirrorNext(s: Store, nodeId: string, reports: seq<Report>, now: Instant)
    requires reports != []
    ensures var (t, n) := Mirror(s, nodeId, reports[..|reports| - 1], now);
      var (u, m) := MirrorOne(t, nodeId, reports[|reports| - 1], now);
      Mirror(s, nodeId, reports, now) == (u, n + m)
  {}

  lemma ConsistentFront(reports: seq<Report>)
    requires Consistent(reports) && reports != []
    ensures Consistent(reports[..|reports| - 1])
    ensures AgreeAll(reports[..|reports| - 1], reports[|reports| - 1])
  {
    var front := reports[..|reports| - 1];
    forall i, j | 0 <= i < |front| && 0 <= j < |front| ensures Agree(front[i], front[j]) {
      assert Agree(reports[i], reports[j]);
    }
    forall i | 0 <= i < |front| ensures Agree(front[i], reports[|reports| - 1]) {
      assert Agree(reports[i], reports[|reports| - 1]);
    }
  }

  lemma MirrorOneKeepsAll(s: Store, nodeId: string, r: Report, reports: seq<Report>, now: Instant)
    requires TasksOk(s.tasks, s.versions) && ReflectsAll(s.tasks, nodeId, reports)
    requires AgreeAll(reports, r)
    ensures ReflectsAll(MirrorOne(s, nodeId, r, now).0.tasks, nodeId, reports)
  {
    hide MirrorOne, Reflects, TasksOk, Agree;
    forall i | 0 <= i < |reports| ensures Reflects(MirrorOne(s, nodeId, r, now).0.tasks, nodeId, reports[i]) {
      MirrorOneKeepsReflection(s, nodeId, r, reports[i], now);
    }
  }

  lemma {:induction false} PushReflects(s: Store, nodeId: string, reports: seq<Report>, now: Instant)
    requires Valid(s) && Consistent(reports)
    ensures ReflectsAll(Mirror(s, nodeId, reports, now).0.tasks, nodeId, reports)
  {
    if reports != [] {
      hide Reflects, MirrorOne, TasksOk, Agree, ReflectsAll, Mirror, Consistent;
      var front, last := reports[..|reports| - 1], reports[|reports| - 1];
      ConsistentFront(reports);
      PushReflects(s, nodeId, front, now);
      PushLaws(s, nodeId, front, now);
      var t := Mirror(s, nodeId, front, now).0;
      MirrorOneReflects(t, nodeId, last, now);
      MirrorOneKeepsAll(t, nodeId, last, front, now);
      MirrorNext(s, nodeId, reports, now);
      ReflectsAllSplit(MirrorOne(t, nodeId, last, now).0.tasks, nodeId, reports);
    }
  }

  /** Pushing reports counts none exactly if the store held them all, and then only touches
      `lastSeenAt`. */
  lemma {:induction false} HeldPushIsQuiet(s: Store, nodeId: string, reports: seq<Report>, now: Instant)
    requires Valid(s)
    ensures var (t, n) := Mirror(s, nodeId, reports, now);
      && (n == 0 <==> ReflectsAll(s.tasks, nodeId, reports))
      && (n == 0 ==>
            && t.versions == s.versions
            && OnlySeen(s.tasks, t.tasks))
  {
    if reports != [] {
      hide Reflects, MirrorOne, TasksOk, ReflectsAll, Mirror, OnlySeen;
      var front, last := reports[..|reports| - 1], reports[|reports| - 1];
      HeldPushIsQuiet(s, nodeId, front, now);
      PushLaws(s, nodeId, front, now);
      MirrorNext(s, nodeId, reports, now);
      ReflectsAllSplit(s.tasks, nodeId, reports);
      HeldPushStep(s, Mirror(s, nodeId, front, now).0, nodeId, last, now, Mirror(s, nodeId, front, now).1 == 0);
    }
  }

  lemma HeldPushStep(s: Store, t: Store, nodeId: string, r: Report, now: Instant, quiet: bool)
    requires Valid(t)
    requires quiet ==> OnlySeen(s.tasks, t.tasks) && t.versions == s.versions
    ensures quiet ==>
      var (u, m) := MirrorOne(t, nodeId, r, now);
      && (m == 0 <==> Reflects(s.tasks, nodeId, r))
      && (m == 0 ==> OnlySeen(s.tasks, u.tasks) && u.versions == s.versions)
  {
    MirrorOneReflects(t, nodeId, r, now);
    var u := MirrorOne(t, nodeId, r, now).0;
    hide MirrorOne, Reflects, TasksOk;
    if quiet {
      OnlySeenReflects(s.tasks, t.tasks, nodeId, r);
      if OnlySeen(t.tasks, u.tasks) {
        OnlySeenTrans(s.tasks, t.tasks, u.tasks);
      }
    }
  }

  lemma OnlySeenTrans(a: seq<Slot<Task>>, b: seq<Slot<Task>>, c: seq<Slot<Task>>)
    requires OnlySeen(a, b) && OnlySeen(b, c)
    ensures OnlySeen(a, c)
  {
    forall i | 0 <= i < |a| ensures SeenAgain(a[i], c[i]) {
      assert SeenAgain(a[i], b[i]) && SeenAgain(b[i], c[i]);
    }
  }

  lemma BothReflectedAgree(tasks: seq<Slot<Task>>, nodeId: string, q: Report, r: Report)
    requires Reflects(tasks, nodeId, q) && Reflects(tasks, nodeId, r)
    ensures Agree(q, r)
  {}

  /** Pushing a batch twice mirrors nothing the second time and changes only `lastSeenAt`, exactly
      if the batch does not say two different things of one task. */
  lemma RepushIsQuietExactly(s: Store, nodeId: string, reports: seq<Report>, first: Instant, second: Instant)
    requires Valid(s)
    ensures var once := Mirror(s, nodeId, reports, first).0;
      var (twice, n) := Mirror(once, nodeId, reports, second);
      && (n == 0 <==> Consistent(reports))
      && (n == 0 ==>
            && (twice.versions, twice.beats) == (once.versions, once.beats)
            && OnlySeen(once.tasks, twice.tasks))
  {
    var once := Mirror(s, nodeId, reports, first).0;
    PushLaws(s, nodeId, reports, first);
    PushLaws(once, nodeId, reports, second);
    HeldPushIsQuiet(once, nodeId, reports, second);
    hide Mirror, Reflects, Agree, TasksOk;
    if Consistent(reports) {
      PushReflects(s, nodeId, reports, first);
    }
    if Mirror(once, nodeId, reports, second).1 == 0 {
      forall i, j | 0 <= i < |reports| && 0 <= j < |reports| ensures Agree(reports[i], reports[j]) {
        BothReflectedAgree(once.tasks, nodeId, reports[i], reports[j]);
      }
    }
  }

  /** A batch of distinct task ids does not. */
  lemma DistinctIdsConsistent(reports: seq<Report>)
    requires forall i, j :: 0 <= i < j < |reports| ==> reports[i].taskId != reports[j].taskId
    ensures Consistent(reports)
  {}
}
