/** The mirror store: the tasks that nodes report, and a failure detector over their heartbeats. */
module MirrorStore {

  datatype Status = Pending | Running | Success | Failed | Cancelled | Unknown

  predicate Terminal(s: Status) { s.Success? || s.Failed? || s.Cancelled? }

  /** A clock reading: epoch milliseconds and their ISO text. */
  datatype Instant = Instant(ms: int, iso: string)

  datatype Task = Task(taskId: string, nodeId: string, title: string, status: Status, summary: string,
                       updatedAt: string, lastSeenAt: Instant, firstSeenAt: Instant, version: nat)

  /** A task as a node reports it. */
  datatype Report = Report(taskId: string, title: string, status: Status, summary: string, updatedAt: string)

  datatype Beat = Beat(lastSeenAt: int, state: string, consecutive: nat, unknown: bool)

  /** An entry of a JavaScript `Map`, which keeps its entries in insertion order. */
  datatype Slot<+V> = Slot(key: string, value: V)

  datatype Store = Store(tasks: seq<Slot<Task>>, beats: seq<Slot<Beat>>, versions: nat)

  const EMPTY: Store := Store([], [], 0)
  const MAX_SUMMARY_LENGTH: nat := 500

  function BuildKey(nodeId: string, taskId: string): string { nodeId + ":" + taskId }

  /** The place of a key, or -1. */
  function Find<V>(slots: seq<Slot<V>>, key: string): (i: int)
    ensures -1 <= i < |slots|
    ensures i >= 0 ==> slots[i].key == key
    ensures forall k :: 0 <= k < |slots| && (i == -1 || k < i) ==> slots[k].key != key
  {
    if slots == [] then -1
    else
      var k := Find(slots[..|slots| - 1], key);
      if k >= 0 then k else if slots[|slots| - 1].key == key then |slots| - 1 else -1
  }

  // ----- Heartbeats -----

  function FirstBeat(state: string, now: int): Beat { Beat(now, state, 1, false) }

  function NextBeat(b: Beat, state: string, now: int): Beat {
    var count := if b.consecutive + 1 < 100 then b.consecutive + 1 else 100;
    if b.unknown && count >= 2 then Beat(now, state, 0, false) else Beat(now, state, count, b.unknown)
  }

  function Heartbeat(s: Store, nodeId: string, state: string, now: int): Store {
    var i := Find(s.beats, nodeId);
    if i < 0 then s.(beats := s.beats + [Slot(nodeId, FirstBeat(state, now))])
    else s.(beats := s.beats[i := Slot(nodeId, NextBeat(s.beats[i].value, state, now))])
  }

  // ----- Marking -----

  predicate Active(t: Task, nodeId: string) { t.nodeId == nodeId && !Terminal(t.status) }

  /** The tasks and the version counter after a node's active tasks are marked, in map order. */
  function Marked(tasks: seq<Slot<Task>>, nodeId: string, iso: string, versions: nat): (r: (seq<Slot<Task>>, nat))
    ensures |r.0| == |tasks|
  {
    if tasks == [] then ([], versions)
    else
      var (front, v) := Marked(tasks[..|tasks| - 1], nodeId, iso, versions);
      var last := tasks[|tasks| - 1];
      (front + [MarkSlot(last, nodeId, iso, v)], if Active(last.value, nodeId) then v + 1 else v)
  }

  function MarkSlot(slot: Slot<Task>, nodeId: string, iso: string, versions: nat): Slot<Task> {
    if Active(slot.value, nodeId)
    then Slot(slot.key, slot.value.(status := Unknown, updatedAt := iso, version := versions + 1))
    else slot
  }

  lemma MarkedNext(tasks: seq<Slot<Task>>, i: nat, nodeId: string, iso: string, versions: nat)
    requires i < |tasks|
    ensures var (front, v) := Marked(tasks[..i], nodeId, iso, versions);
      Marked(tasks[..i + 1], nodeId, iso, versions) ==
        (front + [MarkSlot(tasks[i], nodeId, iso, v)], if Active(tasks[i].value, nodeId) then v + 1 else v)
  {
    assert tasks[..i + 1][..i] == tasks[..i];
  }

  /** Replacing the first element of the part not yet done. */
  lemma Middle<V>(done: seq<V>, was: seq<V>, i: nat, x: V)
    requires |done| == i < |was|
    ensures (done + was[i..])[i] == was[i]
    ensures (done + was[i..])[i := x] == done + [x] + was[i + 1..]
    ensures done + was[i..] == done + [was[i]] + was[i + 1..]
  {}

  function MarkNode(s: Store, nodeId: string, iso: string): Store {
    var (tasks, versions) := Marked(s.tasks, nodeId, iso, s.versions);
    s.(tasks := tasks, versions := versions)
  }

  // ----- Scanning -----

  function Threshold(state: string, stale: int, degraded: int): int {
    if state == "degraded" then degraded else stale
  }

  predicate Overdue(b: Beat, stale: int, degraded: int, now: int) {
    now - b.lastSeenAt > Threshold(b.state, stale, degraded)
  }

  predicate Marks(b: Beat, stale: int, degraded: int, now: int) { !b.unknown && Overdue(b, stale, degraded, now) }

  function MarkedBeat(b: Beat): Beat { b.(unknown := true, consecutive := 0) }

  /** The store after the first `k` nodes are scanned, and how many of them were marked. */
  function Scanned(s: Store, stale: int, degraded: int, now: Instant, k: nat): (r: (Store, nat))
    requires k <= |s.beats|
    ensures |r.0.beats| == |s.beats|
    ensures forall j :: k <= j < |s.beats| ==> r.0.beats[j] == s.beats[j]
  {
    if k == 0 then (s, 0)
    else
      var (r, marked) := Scanned(s, stale, degraded, now, k - 1);
      var slot := s.beats[k - 1];
      if Marks(slot.value, stale, degraded, now.ms) then
        var m := MarkNode(r, slot.key, now.iso);
        (m.(beats := r.beats[k - 1 := Slot(slot.key, MarkedBeat(slot.value))]), marked + 1)
      else (r, marked)
  }

  function Scan(s: Store, stale: int, degraded: int, now: Instant): (Store, nat) {
    Scanned(s, stale, degraded, now, |s.beats|)
  }

  // ----- Mirroring -----

  function Summary(text: string): (r: string)
    ensures |r| <= MAX_SUMMARY_LENGTH
  {
    if |text| > MAX_SUMMARY_LENGTH then text[..MAX_SUMMARY_LENGTH - 3] + "..." else text
  }

  predicate Changed(t: Task, r: Report) {
    t.status != r.status || t.summary != Summary(r.summary) || t.title != r.title
  }

  /** One reported task; the counter says whether it counts as mirrored. */
  function MirrorOne(s: Store, nodeId: string, r: Report, now: Instant): (Store, nat) {
    var key := BuildKey(nodeId, r.taskId);
    var i := Find(s.tasks, key);
    if i < 0 then
      var task := Task(r.taskId, nodeId, r.title, r.status, Summary(r.summary), r.updatedAt, now, now, s.versions + 1);
      (s.(tasks := s.tasks + [Slot(key, task)], versions := s.versions + 1), 1)
    else if Changed(s.tasks[i].value, r) then
      var task := s.tasks[i].value.(status := r.status, summary := Summary(r.summary), title := r.title,
                                    updatedAt := r.updatedAt, lastSeenAt := now, version := s.versions + 1);
      (s.(tasks := s.tasks[i := Slot(key, task)], versions := s.versions + 1), 1)
    else
      (s.(tasks := s.tasks[i := Slot(key, s.tasks[i].value.(lastSeenAt := now))]), 0)
  }

  function Mirror(s: Store, nodeId: string, reports: seq<Report>, now: Instant): (Store, nat) {
    if reports == [] then (s, 0)
    else
      var (r, n) := Mirror(s, nodeId, reports[..|reports| - 1], now);
      var (r', m) := MirrorOne(r, nodeId, reports[|reports| - 1], now);
      (r', n + m)
  }

  // ----- Cleanup -----

  predicate Expired(t: Task, maxAge: int, now: int) { Terminal(t.status) && now - t.lastSeenAt.ms > maxAge }

  function Kept(tasks: seq<Slot<Task>>, maxAge: int, now: int): (r: seq<Slot<Task>>)
    ensures |r| <= |tasks|
  {
    if tasks == [] then []
    else
      var front, last := Kept(tasks[..|tasks| - 1], maxAge, now), tasks[|tasks| - 1];
      if Expired(last.value, maxAge, now) then front else front + [last]
  }

  class MirrorStore {
    var tasks: seq<Slot<Task>>
    var nodeHeartbeats: seq<Slot<Beat>>
    var versionCounter: nat

    function State(): Store
      reads this
    {
      Store(tasks, nodeHeartbeats, versionCounter)
    }

    constructor ()
      ensures State() == EMPTY
    {
      tasks, nodeHeartbeats, versionCounter := [], [], 0;
    }

    method RecordNodeHeartbeat(nodeId: string, state: string, now: int)
      modifies `nodeHeartbeats
      ensures State() == Heartbeat(old(State()), nodeId, state, now)
    {
      var i := Find(nodeHeartbeats, nodeId);
      if i < 0 {
        nodeHeartbeats := nodeHeartbeats + [Slot(nodeId, Beat(now, state, 1, false))];
        return;
      }
      var b := nodeHeartbeats[i].value;
      b := b.(lastSeenAt := now, state := state);
      b := b.(consecutive := if b.consecutive + 1 < 100 then b.consecutive + 1 else 100);
      if b.unknown && b.consecutive >= 2 {
        b := b.(unknown := false, consecutive := 0);
      }
      nodeHeartbeats := nodeHeartbeats[i := Slot(nodeId, b)];
    }

    method ScanStaleNodes(stale: int, degraded: int, now: Instant) returns (marked: nat)
      modifies this
      ensures State() == Scan(old(State()), stale, degraded, now).0
      ensures marked == Scan(old(State()), stale, degraded, now).1
    {
      marked := 0;
      var i := 0;
      while i < |nodeHeartbeats|
        invariant 0 <= i <= |nodeHeartbeats| == |old(nodeHeartbeats)|
        invariant (State(), marked) == Scanned(old(State()), stale, degraded, now, i)
      {
        var slot := nodeHeartbeats[i];
        if !slot.value.unknown {
          var threshold := if slot.value.state == "degraded" then degraded else stale;
          if now.ms - slot.value.lastSeenAt > threshold {
            var _ := MarkNodeUnknown(slot.key, now);
            nodeHeartbeats := nodeHeartbeats[i := Slot(slot.key, slot.value.(unknown := true, consecutive := 0))];
            marked := marked + 1;
          }
        }
        i := i + 1;
      }
    }

    method MirrorTasks(nodeId: string, reports: seq<Report>, now: Instant) returns (mirrored: nat)
      modifies `tasks, `versionCounter
      ensures State() == Mirror(old(State()), nodeId, reports, now).0
      ensures mirrored == Mirror(old(State()), nodeId, reports, now).1
    {
      hide MirrorOne;
      mirrored := 0;
      var i := 0;
      while i < |reports|
        invariant 0 <= i <= |reports|
        invariant nodeHeartbeats == old(nodeHeartbeats)
        invariant (State(), mirrored) == Mirror(old(State()), nodeId, reports[..i], now)
      {
        assert reports[..i + 1][..i] == reports[..i];
        var changed := MirrorTask(nodeId, reports[i], now);
        mirrored := if changed then mirrored + 1 else mirrored;
        i := i + 1;
      }
      assert reports[..i] == reports;
    }

    /** The body of the loop over the reported tasks. */
    method MirrorTask(nodeId: string, r: Report, now: Instant) returns (changed: bool)
      modifies `tasks, `versionCounter
      ensures (State(), if changed then 1 else 0) == MirrorOne(old(State()), nodeId, r, now)
    {
      var key := BuildKey(nodeId, r.taskId);
      var k := Find(tasks, key);
      var summary := if |r.summary| > MAX_SUMMARY_LENGTH then r.summary[..MAX_SUMMARY_LENGTH - 3] + "..." else r.summary;
      if k < 0 {
        versionCounter := versionCounter + 1;
        var task := Task(r.taskId, nodeId, r.title, r.status, summary, r.updatedAt, now, now, versionCounter);
        tasks := tasks + [Slot(key, task)];
        return true;
      }
      var t := tasks[k].value;
      if t.status != r.status || t.summary != summary || t.title != r.title {
        versionCounter := versionCounter + 1;
        t := t.(status := r.status, summary := summary, title := r.title, updatedAt := r.updatedAt,
                lastSeenAt := now, version := versionCounter);
        tasks := tasks[k := Slot(key, t)];
        return true;
      }
      tasks := tasks[k := Slot(key, t.(lastSeenAt := now))];
      return false;
    }

    method MarkNodeUnknown(nodeId: string, now: Instant) returns (count: nat)
      modifies `tasks, `versionCounter
      ensures State() == MarkNode(old(State()), nodeId, now.iso)
      ensures versionCounter == old(versionCounter) + count
    {
      count := 0;
      var i := 0;
      ghost var was := tasks;
      ghost var done := Marked(was[..0], nodeId, now.iso, versionCounter);
      while i < |tasks|
        invariant 0 <= i <= |tasks| == |was|
        invariant done == Marked(was[..i], nodeId, now.iso, old(versionCounter))
        invariant tasks == done.0 + was[i..]
        invariant versionCounter == done.1 == old(versionCounter) + count
      {
        hide Marked, MarkSlot, Active;
        MarkedNext(was, i, nodeId, now.iso, old(versionCounter));
        ghost var done0 := done;
        done := Marked(was[..i + 1], nodeId, now.iso, old(versionCounter));
        Middle(done0.0, was, i, MarkSlot(was[i], nodeId, now.iso, versionCounter));
        var marked := MarkTask(i, nodeId, now);
        count := if marked then count + 1 else count;
        i := i + 1;
      }
      assert was[..i] == was;
    }

    /** The body of the loop over the tasks. */
    method MarkTask(i: nat, nodeId: string, now: Instant) returns (marked: bool)
      requires i < |tasks|
      modifies `tasks, `versionCounter
      ensures marked <==> Active(old(tasks)[i].value, nodeId)
      ensures tasks == old(tasks)[i := MarkSlot(old(tasks)[i], nodeId, now.iso, old(versionCounter))]
      ensures versionCounter == if marked then old(versionCounter) + 1 else old(versionCounter)
    {
      var slot := tasks[i];
      marked := slot.value.nodeId == nodeId && !Terminal(slot.value.status);
      if marked {
        versionCounter := versionCounter + 1;
        tasks := tasks[i := Slot(slot.key, slot.value.(status := Unknown, updatedAt := now.iso, version := versionCounter))];
      }
    }

    method Cleanup(maxAge: int, now: int) returns (cleaned: nat)
      modifies `tasks
      ensures tasks == Kept(old(tasks), maxAge, now)
      ensures cleaned == |old(tasks)| - |tasks|
    {
      var kept: seq<Slot<Task>> := [];
      cleaned := 0;
      var i := 0;
      while i < |tasks|
        invariant 0 <= i <= |tasks| && tasks == old(tasks)
        invariant kept == Kept(tasks[..i], maxAge, now)
        invariant cleaned + |kept| == i
      {
        assert tasks[..i + 1][..i] == tasks[..i];
        if Terminal(tasks[i].value.status) && now - tasks[i].value.lastSeenAt.ms > maxAge {
          cleaned := cleaned + 1;
        } else {
          kept := kept + [tasks[i]];
        }
        i := i + 1;
      }
      assert tasks[..i] == tasks;
      tasks := kept;
    }
  }
}
