/** What the failure detector and a push come to, told in times and states alone. */
module MirrorDetector {
  import opened MirrorLaws
  import opened MirrorStore
  import opened Wrappers

  // ----- One scan -----

  /** A node that called itself degraded is given more time than any other. */
  predicate TooLong(b: Beat, stale: int, degraded: int, now: int) {
    || (b.state == "degraded" && now - b.lastSeenAt > degraded)
    || (b.state != "degraded" && now - b.lastSeenAt > stale)
  }

  /** A node is unknown after a scan if it was before or has been silent for too long; all else
      about it stays, but for the count of one newly unknown. */
  predicate ScannedBeat(was: Beat, later: Beat, stale: int, degraded: int, now: int) {
    && (later.lastSeenAt, later.state) == (was.lastSeenAt, was.state)
    && (later.unknown <==> was.unknown || TooLong(was, stale, degraded, now))
    && later.consecutive == if later.unknown && !was.unknown then 0 else was.consecutive
  }

  lemma {:induction false} ScannedBeats(s: Store, stale: int, degraded: int, now: Instant, k: nat)
    requires k <= |s.beats|
    ensures var r := Scanned(s, stale, degraded, now, k).0;
      forall j :: 0 <= j < k ==>
        r.beats[j].key == s.beats[j].key && ScannedBeat(s.beats[j].value, r.beats[j].value, stale, degraded, now.ms)
  {
    if k > 0 {
      ScannedBeats(s, stale, degraded, now, k - 1);
    }
  }

  /** What a scan makes of the nodes: those silent for longer than their state allows turn unknown. */
  lemma ScanByState(s: Store, stale: int, degraded: int, now: Instant)
    ensures var r := Scan(s, stale, degraded, now).0;
      && |r.beats| == |s.beats|
      && forall j :: 0 <= j < |s.beats| ==>
           r.beats[j].key == s.beats[j].key && ScannedBeat(s.beats[j].value, r.beats[j].value, stale, degraded, now.ms)
  {
    ScannedBeats(s, stale, degraded, now, |s.beats|);
  }

  /** The limit for degraded nodes is nothing to the others, and the other limit nothing to them. */
  lemma LimitsApart(s: Store, stale: int, degraded: int, other: int, now: Instant, j: nat)
    requires j < |s.beats|
    ensures s.beats[j].value.state != "degraded" ==>
      Scan(s, stale, degraded, now).0.beats[j] == Scan(s, stale, other, now).0.beats[j]
    ensures s.beats[j].value.state == "degraded" ==>
      Scan(s, stale, degraded, now).0.beats[j] == Scan(s, other, degraded, now).0.beats[j]
  {
    ScanByState(s, stale, degraded, now);
    ScanByState(s, stale, other, now);
    ScanByState(s, other, degraded, now);
    hide Scan;
  }

  /** The scan has just found a node to be unknown. */
  ghost predicate NewlyUnknown(s: Store, r: Store, nodeId: string)
    requires |r.beats| == |s.beats|
  {
    exists j :: 0 <= j < |s.beats| && TurnsAt(s, r, nodeId, j)
  }

  predicate TurnsAt(s: Store, r: Store, nodeId: string, j: nat)
    requires |r.beats| == |s.beats| && j < |s.beats|
  {
    s.beats[j].key == nodeId && !s.beats[j].value.unknown && r.beats[j].value.unknown
  }

  /** A task is pending, running or unknown already. */
  predicate Unfinished(t: Task) { t.status !in {Success, Failed, Cancelled} }

  /** With a node its unfinished tasks turn unknown, at the time of the scan, and no others change. */
  lemma ScanOfTasks(s: Store, stale: int, degraded: int, now: Instant, i: nat)
    requires Valid(s) && i < |s.tasks|
    ensures var r := Scan(s, stale, degraded, now).0;
      && |r.beats| == |s.beats| && |r.tasks| == |s.tasks|
      && var was, later := s.tasks[i].value, r.tasks[i].value;
         if Unfinished(was) && NewlyUnknown(s, r, was.nodeId)
         then later == was.(status := Unknown, updatedAt := now.iso, version := later.version) && later.version > s.versions
         else later == was
  {
    ScanLaws(s, stale, degraded, now);
    ScanByState(s, stale, degraded, now);
    var r := Scan(s, stale, degraded, now).0;
    assert SlotAfterScan(s, s.tasks[i], r.tasks[i], stale, degraded, now, |s.beats|);
    hide Scan, TasksOk;
    forall j | 0 <= j < |s.beats| ensures TurnsAt(s, r, s.tasks[i].value.nodeId, j) <==>
      s.beats[j].key == s.tasks[i].value.nodeId && Marks(s.beats[j].value, stale, degraded, now.ms)
    {
      assert BeatAfterScan(s.beats[j], r.beats[j], stale, degraded, now.ms);
    }
  }

  // ----- Whole runs -----

  lemma BeatAfterOp(s: Store, op: Op, nodeId: string)
    requires Valid(s) && BeatOf(s, nodeId).Some? && !(op.Beats? && op.nodeId == nodeId)
    ensures var was, later := BeatOf(s, nodeId).value, BeatOf(Apply(s, op), nodeId);
      later.Some? && if op.Scans? then ScannedBeat(was, later.value, op.stale, op.degraded, op.at.ms) else later.value == was
  {
    match op
    case Beats(n, state, now) => HeartbeatEffect(s, n, state, now, nodeId);
    case Scans(stale, degraded, at) =>
      ScanLaws(s, stale, degraded, at);
      ScanByState(s, stale, degraded, at);
      var r := Scan(s, stale, degraded, at).0;
      hide Scan, TasksOk, ScannedBeat;
      FindUnique(r.beats, Find(s.beats, nodeId));
    case Mirrors(n, reports, at) => PushLaws(s, n, reports, at);
    case MarksNode(n, at) =>
    case Cleans(maxAge, now) =>
  }

  /** Every scan of a run comes within the limit of a node's last heartbeat. */
  predicate SeenInTime(b: Beat, ops: seq<Op>) {
    forall i :: 0 <= i < |ops| && ops[i].Scans? ==> !TooLong(b, ops[i].stale, ops[i].degraded, ops[i].at.ms)
  }

  /** A known node that beats no more stays known exactly as long as every scan comes within the
      limit of its state after its last heartbeat. */
  lemma {:induction false} KnownWhileSeen(s: Store, ops: seq<Op>, nodeId: string)
    requires Valid(s) && BeatOf(s, nodeId).Some? && !BeatOf(s, nodeId).value.unknown
    requires HeartbeatsOf(ops, nodeId) == 0
    ensures var was, later := BeatOf(s, nodeId).value, BeatOf(RunFrom(s, ops), nodeId);
      && later.Some? && (later.value.lastSeenAt, later.value.state) == (was.lastSeenAt, was.state)
      && (later.value.unknown <==> !SeenInTime(was, ops))
  {
    if ops != [] {
      var front, op := ops[..|ops| - 1], ops[|ops| - 1];
      KnownWhileSeen(s, front, nodeId);
      RunKeepsValid(s, front);
      BeatAfterOp(RunFrom(s, front), op, nodeId);
      SeenInTimeNext(BeatOf(s, nodeId).value, ops);
      RunFromNext(s, ops);
      hide Valid, RunFrom, BeatOf, Apply, SeenInTime;
    }
  }

  lemma SeenInTimeNext(b: Beat, ops: seq<Op>)
    requires ops != []
    ensures var op := ops[|ops| - 1];
      SeenInTime(b, ops) <==>
        SeenInTime(b, ops[..|ops| - 1]) && (op.Scans? ==> !TooLong(b, op.stale, op.degraded, op.at.ms))
  {
    hide TooLong;
  }

  /** So a node that is not unknown when it says its state at some time is known as long as every
      scan comes within that state's limit of that time. */
  lemma KnownSinceHeartbeat(s: Store, nodeId: string, state: string, time: int, ops: seq<Op>)
    requires Valid(s) && (BeatOf(s, nodeId).Some? ==> !BeatOf(s, nodeId).value.unknown)
    requires HeartbeatsOf(ops, nodeId) == 0
    ensures var later := BeatOf(RunFrom(Heartbeat(s, nodeId, state, time), ops), nodeId);
      later.Some? && (!later.value.unknown <==> SeenInTime(Beat(time, state, 0, false), ops))
  {
    HeartbeatLaws(s, nodeId, state, time);
    HeartbeatEffect(s, nodeId, state, time, nodeId);
    var t := Heartbeat(s, nodeId, state, time);
    hide Heartbeat, Valid, RunFrom;
    KnownWhileSeen(t, ops, nodeId);
    var b := BeatOf(t, nodeId).value;
    assert (b.lastSeenAt, b.state) == (time, state);
    assert SeenInTime(b, ops) <==> SeenInTime(Beat(time, state, 0, false), ops);
  }

  /** The first heartbeat of a node counts as one. */
  lemma FirstHeartbeat(s: Store, nodeId: string, state: string, time: int)
    requires Valid(s) && BeatOf(s, nodeId).None?
    ensures BeatOf(Heartbeat(s, nodeId, state, time), nodeId) == Some(Beat(time, state, 1, false))
  {
    HeartbeatEffect(s, nodeId, state, time, nodeId);
    hide Heartbeat, Valid;
  }

  /** The count of heartbeats in a row stops at a hundred. */
  lemma {:induction false} CountSaturates(s: Store, ops: seq<Op>, nodeId: string)
    requires Valid(s) && BeatOf(s, nodeId).Some? && !BeatOf(s, nodeId).value.unknown
    requires BeatOf(s, nodeId).value.consecutive <= 100 && forall i :: 0 <= i < |ops| ==> !ops[i].Scans?
    ensures var later := BeatOf(RunFrom(s, ops), nodeId);
      var count := BeatOf(s, nodeId).value.consecutive + HeartbeatsOf(ops, nodeId);
      later.Some? && !later.value.unknown && later.value.consecutive == if count < 100 then count else 100
  {
    if ops != [] {
      var front, op := ops[..|ops| - 1], ops[|ops| - 1];
      CountSaturates(s, front, nodeId);
      RunKeepsValid(s, front);
      RunFromNext(s, ops);
      hide Valid, RunFrom, BeatOf, Apply;
      if op.Beats? && op.nodeId == nodeId {
        BeatStep(RunFrom(s, front), op, nodeId);
      } else {
        BeatAfterOp(RunFrom(s, front), op, nodeId);
      }
    }
  }

  // ----- What a push writes -----

  function TaskAt(s: Store, key: string): Option<Task> {
    var i := Find(s.tasks, key);
    if i < 0 then None else Some(s.tasks[i].value)
  }

  lemma SummaryCut(text: string)
    ensures |text| <= 500 ==> Summary(text) == text
    ensures |text| > 500 ==> Summary(text) == text[..497] + "..."
  {}

  predicate SaysNothingNew(t: Task, r: Report) {
    (t.title, t.status, t.summary) == (r.title, r.status, Summary(r.summary))
  }

  /** The entry of a reported task: seen now, and first now if it is new; it has the reported title,
      status and summary, and the reported time of change if one of them is news. */
  predicate Written(was: Option<Task>, later: Option<Task>, nodeId: string, r: Report, now: Instant) {
    && later.Some?
    && later.value.lastSeenAt == now
    && later.value.firstSeenAt == (if was.Some? then was.value.firstSeenAt else now)
    && SaysNothingNew(later.value, r)
    && later.value.updatedAt == (if was.Some? && SaysNothingNew(was.value, r) then was.value.updatedAt else r.updatedAt)
    && (was.None? ==> (later.value.taskId, later.value.nodeId) == (r.taskId, nodeId))
  }

  lemma {:induction false} FindUpdated<V>(slots: seq<Slot<V>>, i: nat, v: V, key: string)
    requires i < |slots|
    ensures Find(slots[i := Slot(slots[i].key, v)], key) == Find(slots, key)
  {
    var front, updated := slots[..|slots| - 1], slots[i := Slot(slots[i].key, v)];
    if i < |front| {
      FindUpdated(front, i, v, key);
      assert updated[..|front|] == front[i := Slot(slots[i].key, v)];
    } else {
      assert updated[..|front|] == front;
    }
  }

  lemma FindAppended<V>(slots: seq<Slot<V>>, slot: Slot<V>, key: string)
    ensures Find(slots + [slot], key) ==
      if Find(slots, key) >= 0 then Find(slots, key) else if slot.key == key then |slots| else -1
  {
    assert (slots + [slot])[..|slots|] == slots;
  }

  lemma ReportWritten(s: Store, nodeId: string, r: Report, now: Instant, key: string)
    ensures var next := MirrorOne(s, nodeId, r, now).0;
      if key == BuildKey(nodeId, r.taskId) then Written(TaskAt(s, key), TaskAt(next, key), nodeId, r, now)
      else TaskAt(next, key) == TaskAt(s, key)
  {
    var own := BuildKey(nodeId, r.taskId);
    var next := MirrorOne(s, nodeId, r, now).0;
    var i := Find(s.tasks, own);
    if i < 0 {
      assert next.tasks == s.tasks + [next.tasks[|s.tasks|]] && next.tasks[|s.tasks|].key == own;
      FindAppended(s.tasks, next.tasks[|s.tasks|], key);
    } else {
      assert next.tasks == s.tasks[i := Slot(own, next.tasks[i].value)];
      FindUpdated(s.tasks, i, next.tasks[i].value, key);
    }
    hide Find, BuildKey, Summary;
  }

  /** An entry is there after a push if it was before, first seen when it was, and a new one is first
      seen at the push. */
  lemma {:induction false} PushFirstSeen(s: Store, nodeId: string, reports: seq<Report>, now: Instant, key: string)
    ensures var was, later := TaskAt(s, key), TaskAt(Mirror(s, nodeId, reports, now).0, key);
      && (was.Some? ==> later.Some?)
      && (later.Some? ==> later.value.firstSeenAt == if was.Some? then was.value.firstSeenAt else now)
  {
    if reports != [] {
      var front, last := reports[..|reports| - 1], reports[|reports| - 1];
      PushFirstSeen(s, nodeId, front, now, key);
      ReportWritten(Mirror(s, nodeId, front, now).0, nodeId, last, now, key);
      hide TaskAt, MirrorOne;
    }
  }

  /** After a push every reported task is seen now, and was first seen now if it had no entry. */
  lemma {:induction false} PushSeesAll(s: Store, nodeId: string, reports: seq<Report>, now: Instant, i: nat)
    requires i < |reports|
    ensures SeenNow(TaskAt(s, BuildKey(nodeId, reports[i].taskId)),
                    TaskAt(Mirror(s, nodeId, reports, now).0, BuildKey(nodeId, reports[i].taskId)), now)
  {
    var front, last := reports[..|reports| - 1], reports[|reports| - 1];
    var key := BuildKey(nodeId, reports[i].taskId);
    var before := Mirror(s, nodeId, front, now).0;
    assert Mirror(s, nodeId, reports, now).0 == MirrorOne(before, nodeId, last, now).0;
    hide TaskAt, MirrorOne, Mirror, BuildKey, SaysNothingNew;
    ReportWritten(before, nodeId, last, now, key);
    if key == BuildKey(nodeId, last.taskId) {
      PushFirstSeen(s, nodeId, front, now, key);
      assert TaskAt(before, key).None? ==> TaskAt(s, key).None?;
    } else {
      PushSeesAll(s, nodeId, front, now, i);
    }
  }

  predicate SeenNow(was: Option<Task>, later: Option<Task>, now: Instant) {
    && later.Some? && later.value.lastSeenAt == now
    && later.value.firstSeenAt == if was.Some? then was.value.firstSeenAt else now
  }

  /** Cleanup removes exactly the finished entries not seen for longer than the age allowed. */
  lemma CleanupByAge(tasks: seq<Slot<Task>>, maxAge: int, now: int, slot: Slot<Task>)
    ensures slot in Kept(tasks, maxAge, now)
      <==> slot in tasks && (Unfinished(slot.value) || now - slot.value.lastSeenAt.ms <= maxAge)
  {
    KeptMembers(tasks, maxAge, now);
  }
}
