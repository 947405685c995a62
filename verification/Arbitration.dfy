/** Arbitration of events that nodes replay after having been offline: shared maps of task owners
    and of executed tool calls, updated event by event. */
module Arbitration {
  import opened Wrappers

  datatype EventType = TaskAssign | TaskComplete | ToolCall | Other(name: string)

  /** A replayed event; a payload field that is missing or no string is `None`. */
  datatype ReplayEvent = ReplayEvent(eventId: string, kind: EventType, seqNo: int,
                                     taskId: Option<string>, idempotencyKey: Option<string>)
  datatype Resolution = RejectedDuplicate | RejectedVersionBehind | AlreadyExecuted
  datatype ConflictItem = ConflictItem(eventId: string, kind: EventType, resolution: Resolution)

  datatype State = State(assignments: map<string, string>, executed: set<string>)

  const EMPTY: State := State(map[], {})

  /** The node a task is assigned to; an empty node id reads as unassigned. */
  function Owner(s: State, task: string): Option<string> {
    if task in s.assignments && s.assignments[task] != "" then Some(s.assignments[task]) else None
  }

  /** What one event does to the state, and why it is refused if it is. */
  function Detect(s: State, node: string, e: ReplayEvent): (State, Option<Resolution>) {
    match e.kind
    case TaskAssign =>
      if e.taskId.None? then (s, None)
      else
        var owner := Owner(s, e.taskId.value);
        if owner.Some? && owner.value != node then (s, Some(RejectedDuplicate))
        else (s.(assignments := s.assignments[e.taskId.value := node]), None)
    case TaskComplete =>
      if e.taskId.None? then (s, None)
      else
        var owner := Owner(s, e.taskId.value);
        if owner.None? then (s, Some(RejectedVersionBehind))
        else if owner.value != node then (s, Some(RejectedDuplicate))
        else (s, None)
    case ToolCall =>
      if e.idempotencyKey.None? then (s, None)
      else if e.idempotencyKey.value in s.executed then (s, Some(AlreadyExecuted))
      else (s.(executed := s.executed + {e.idempotencyKey.value}), None)
    case Other(_) => (s, None)
  }

  // ----- A batch -----

  /** The state after a batch of one node. */
  function Replayed(s: State, node: string, events: seq<ReplayEvent>): State {
    if events == [] then s
    else Detect(Replayed(s, node, events[..|events| - 1]), node, events[|events| - 1]).0
  }

  /** The verdict on the i-th event of a batch. */
  function VerdictAt(s: State, node: string, events: seq<ReplayEvent>, i: nat): Option<Resolution>
    requires i < |events|
  {
    Detect(Replayed(s, node, events[..i]), node, events[i]).1
  }

  /** The conflicts of a batch, in the order of its events. */
  function Conflicts(s: State, node: string, events: seq<ReplayEvent>): (r: seq<ConflictItem>)
    ensures |r| <= |events|
  {
    if events == [] then []
    else
      var front, e := events[..|events| - 1], events[|events| - 1];
      var verdict := Detect(Replayed(s, node, front), node, e).1;
      Conflicts(s, node, front)
      + (if verdict.Some? then [ConflictItem(e.eventId, e.kind, verdict.value)] else [])
  }

  class Arbiter {
    var taskAssignments: map<string, string>
    var executedToolCalls: set<string>

    function Snapshot(): State
      reads this
    {
      State(taskAssignments, executedToolCalls)
    }

    constructor ()
      ensures Snapshot() == EMPTY
    {
      taskAssignments := map[];
      executedToolCalls := {};
    }

    method DetectConflict(node: string, e: ReplayEvent) returns (conflict: Option<ConflictItem>)
      modifies this
      ensures Snapshot() == Detect(old(Snapshot()), node, e).0
      ensures match Detect(old(Snapshot()), node, e).1
        case None => conflict == None
        case Some(r) => conflict == Some(ConflictItem(e.eventId, e.kind, r))
    {
      match e.kind
      case TaskAssign =>
        if e.taskId.None? {
          return None;
        }
        var task := e.taskId.value;
        if task in taskAssignments && taskAssignments[task] != "" && taskAssignments[task] != node {
          return Some(ConflictItem(e.eventId, e.kind, RejectedDuplicate));
        }
        taskAssignments := taskAssignments[task := node];
        return None;
      case TaskComplete =>
        if e.taskId.None? {
          return None;
        }
        var task := e.taskId.value;
        if task !in taskAssignments || taskAssignments[task] == "" {
          return Some(ConflictItem(e.eventId, e.kind, RejectedVersionBehind));
        }
        if taskAssignments[task] != node {
          return Some(ConflictItem(e.eventId, e.kind, RejectedDuplicate));
        }
        return None;
      case ToolCall =>
        if e.idempotencyKey.Some? && e.idempotencyKey.value in executedToolCalls {
          return Some(ConflictItem(e.eventId, e.kind, AlreadyExecuted));
        }
        if e.idempotencyKey.Some? {
          executedToolCalls := executedToolCalls + {e.idempotencyKey.value};
        }
        return None;
      case Other(_) =>
        return None;
    }

    method Arbitrate(node: string, events: seq<ReplayEvent>)
      returns (accepted: nat, conflicts: seq<ConflictItem>, lastSeqNo: int)
      modifies this
      ensures Snapshot() == Replayed(old(Snapshot()), node, events)
      ensures conflicts == Conflicts(old(Snapshot()), node, events)
      ensures accepted + |conflicts| == |events|
      ensures lastSeqNo == if events == [] then 0 else events[|events| - 1].seqNo
    {
      accepted, conflicts := 0, [];
      var i := 0;
      while i < |events|
        invariant 0 <= i <= |events|
        invariant Snapshot() == Replayed(old(Snapshot()), node, events[..i])
        invariant conflicts == Conflicts(old(Snapshot()), node, events[..i])
        invariant accepted + |conflicts| == i
      {
        assert events[..i + 1][..i] == events[..i];
        var conflict := DetectConflict(node, events[i]);
        if conflict.Some? {
          conflicts := conflicts + [conflict.value];
        } else {
          accepted := accepted + 1;
        }
        i := i + 1;
      }
      assert events[..i] == events;
      lastSeqNo := if |events| > 0 then events[|events| - 1].seqNo else 0;
    }

    method TrackTaskAssignment(task: string, node: string)
      modifies this
      ensures Snapshot() == old(Snapshot()).(assignments := old(taskAssignments)[task := node])
    {
      taskAssignments := taskAssignments[task := node];
    }

    method TrackToolExecution(key: string)
      modifies this
      ensures Snapshot() == old(Snapshot()).(executed := old(executedToolCalls) + {key})
    {
      executedToolCalls := executedToolCalls + {key};
    }
  }

  // ----- Resuming a batch, and replaying it -----

  lemma {:induction false} ReplayedConcat(s: State, node: string, a: seq<ReplayEvent>, b: seq<ReplayEvent>)
    ensures Replayed(s, node, a + b) == Replayed(Replayed(s, node, a), node, b)
    ensures Conflicts(s, node, a + b) == Conflicts(s, node, a) + Conflicts(Replayed(s, node, a), node, b)
  {
    if b == [] {
      assert a + b == a;
    } else {
      var front := b[..|b| - 1];
      ReplayedConcat(s, node, a, front);
      assert (a + b)[..|a + b| - 1] == a + front;
    }
  }

  lemma ReplayedNext(s: State, node: string, events: seq<ReplayEvent>, i: nat)
    requires i < |events|
    ensures Replayed(s, node, events[..i + 1]) == Detect(Replayed(s, node, events[..i]), node, events[i]).0
  {
    assert events[..i + 1][..i] == events[..i];
  }

  predicate Holds(s: State, node: string, task: string) {
    task in s.assignments && s.assignments[task] == node
  }

  predicate HeldByOther(s: State, node: string, task: string) {
    Owner(s, task) !in {None, Some(node)}
  }

  /** What a node holds, what others hold and what is executed stays so. */
  ghost predicate Keeps(a: State, b: State, node: string) {
    && (forall t :: Holds(a, node, t) ==> Holds(b, node, t))
    && (forall t :: HeldByOther(a, node, t) ==> HeldByOther(b, node, t))
    && a.executed <= b.executed
  }

  lemma EventKeeps(s: State, node: string, e: ReplayEvent)
    ensures Keeps(s, Detect(s, node, e).0, node)
  {}

  /** Within one node's batch all of it stays so. */
  lemma {:induction false} BatchKeeps(s: State, node: string, events: seq<ReplayEvent>, i: nat, j: nat)
    requires i <= j <= |events|
    ensures Keeps(Replayed(s, node, events[..i]), Replayed(s, node, events[..j]), node)
    decreases j
  {
    if i < j {
      BatchKeeps(s, node, events, i, j - 1);
      ReplayedNext(s, node, events, j - 1);
      EventKeeps(Replayed(s, node, events[..j - 1]), node, events[j - 1]);
      hide Detect, Replayed, Holds, HeldByOther;
    }
  }

  /** What an event leaves behind: an assigned task is held by the node exactly if the event was
      accepted, and by another if not; a keyed call is executed. */
  lemma EventLeaves(s: State, node: string, events: seq<ReplayEvent>, i: nat)
    requires i < |events|
    ensures var e, after := events[i], Replayed(s, node, events);
      && (e.kind.TaskAssign? && e.taskId.Some? ==>
            if VerdictAt(s, node, events, i).None? then Holds(after, node, e.taskId.value)
            else HeldByOther(after, node, e.taskId.value))
      && (e.kind.ToolCall? && e.idempotencyKey.Some? ==> e.idempotencyKey.value in after.executed)
  {
    ReplayedNext(s, node, events, i);
    BatchKeeps(s, node, events, i + 1, |events|);
    assert events[..|events|] == events;
  }

  /** After a batch none of its events changes anything. */
  lemma EventAgain(s: State, node: string, events: seq<ReplayEvent>, i: nat)
    requires i < |events|
    ensures var after := Replayed(s, node, events); Detect(after, node, events[i]).0 == after
  {
    EventLeaves(s, node, events, i);
  }

  /** Replaying a whole batch again changes nothing, whatever came before it and whatever the node's
      id: assignments get the verdict they got, keyed tool calls are known, and a completion is
      accepted exactly if the batch left the task with the node. */
  lemma {:induction false} SecondReplay(s: State, node: string, events: seq<ReplayEvent>, k: nat)
    requires k <= |events|
    ensures var after := Replayed(s, node, events);
      && Replayed(after, node, events[..k]) == after
      && forall i :: 0 <= i < k ==> SecondVerdict(s, node, events, i)
    decreases k
  {
    if k > 0 {
      SecondReplay(s, node, events, k - 1);
      var after := Replayed(s, node, events);
      ReplayedNext(after, node, events, k - 1);
      EventAgain(s, node, events, k - 1);
      EventLeaves(s, node, events, k - 1);
      hide Replayed;
    }
  }

  ghost predicate SecondVerdict(s: State, node: string, events: seq<ReplayEvent>, i: nat)
    requires i < |events|
  {
    var e, after := events[i], Replayed(s, node, events);
    var again := VerdictAt(after, node, events, i);
    match e.kind
    case TaskAssign => again == VerdictAt(s, node, events, i)
    case TaskComplete => again.None? <==> e.taskId.None? || Owner(after, e.taskId.value) == Some(node)
    case ToolCall => again == if e.idempotencyKey.Some? then Some(AlreadyExecuted) else None
    case Other(_) => again.None?
  }

  // ----- Many nodes -----

  /** One step of the server: an event of some node's batch, or its own bookkeeping. */
  datatype Step =
    | Submit(node: string, event: ReplayEvent)
    | TrackTask(task: string, owner: string)
    | TrackTool(key: string)

  function Apply(s: State, step: Step): State {
    match step
    case Submit(node, e) => Detect(s, node, e).0
    case TrackTask(task, owner) => s.(assignments := s.assignments[task := owner])
    case TrackTool(key) => s.(executed := s.executed + {key})
  }

  /** The state after a run from the empty server. */
  function Run(steps: seq<Step>): State {
    if steps == [] then EMPTY else Apply(Run(steps[..|steps| - 1]), steps[|steps| - 1])
  }

  predicate Accepted(steps: seq<Step>, i: nat)
    requires i < |steps|
  {
    steps[i].Submit? && Detect(Run(steps[..i]), steps[i].node, steps[i].event).1.None?
  }

  function AssignedTask(step: Step): Option<string> {
    if step.Submit? && step.event.kind.TaskAssign? then step.event.taskId else None
  }

  predicate Assigns(step: Step, task: string) { AssignedTask(step) == Some(task) }

  predicate Completes(step: Step, task: string) {
    step.Submit? && step.event.kind.TaskComplete? && step.event.taskId == Some(task)
  }

  predicate Calls(step: Step, key: string) {
    step.Submit? && step.event.kind.ToolCall? && step.event.idempotencyKey == Some(key)
  }

  /** Nodes are named, as the endpoint demands, and the server does not assign `task` itself. */
  ghost predicate FairFor(steps: seq<Step>, task: string) {
    forall i :: 0 <= i < |steps| ==>
      (steps[i].Submit? ==> steps[i].node != "") && !(steps[i].TrackTask? && steps[i].task == task)
  }

  /** The node of the first assignment of a task, whatever the server made of it. */
  function FirstAssigner(steps: seq<Step>, task: string): Option<string> {
    if steps == [] then None
    else
      var earlier := FirstAssigner(steps[..|steps| - 1], task);
      var last := steps[|steps| - 1];
      if earlier.Some? then earlier else if Assigns(last, task) then Some(last.node) else None
  }

  /** The keys of all tool calls, submitted or tracked. */
  function KeysSeen(steps: seq<Step>): set<string> {
    if steps == [] then {}
    else
      var last := steps[|steps| - 1];
      KeysSeen(steps[..|steps| - 1])
      + (if last.TrackTool? then {last.key}
         else if last.Submit? && last.event.kind.ToolCall? && last.event.idempotencyKey.Some? then {last.event.idempotencyKey.value}
         else {})
  }

  lemma {:induction false} OwnerIsFirstAssigner(steps: seq<Step>, task: string)
    requires FairFor(steps, task)
    ensures Owner(Run(steps), task) == FirstAssigner(steps, task)
  {
    if steps != [] {
      OwnerIsFirstAssigner(steps[..|steps| - 1], task);
    }
  }

  lemma {:induction false} ExecutedIsSeen(steps: seq<Step>)
    ensures Run(steps).executed == KeysSeen(steps)
  {
    if steps != [] {
      ExecutedIsSeen(steps[..|steps| - 1]);
    }
  }

  /** The verdict on every event, told from the submissions alone: the first to assign a task owns
      it for good, only the owner completes it, and a key passes only if it was never seen. */
  lemma VerdictsFollowFirsts(steps: seq<Step>, i: nat, name: string)
    requires i < |steps| && FairFor(steps[..i + 1], name)
    ensures Assigns(steps[i], name) ==>
      (Accepted(steps, i) <==> FirstAssigner(steps[..i + 1], name) == Some(steps[i].node))
    ensures Completes(steps[i], name) ==>
      (Accepted(steps, i) <==> FirstAssigner(steps[..i], name) == Some(steps[i].node))
    ensures Calls(steps[i], name) ==> (Accepted(steps, i) <==> name !in KeysSeen(steps[..i]))
  {
    assert steps[..i + 1][..i] == steps[..i];
    forall k | 0 <= k < i ensures steps[..i][k] == steps[..i + 1][k] {}
    OwnerIsFirstAssigner(steps[..i], name);
    ExecutedIsSeen(steps[..i]);
  }

  lemma {:induction false} FirstAssignerStays(steps: seq<Step>, task: string, i: nat, j: nat)
    requires i <= j <= |steps| && FirstAssigner(steps[..i], task).Some?
    ensures FirstAssigner(steps[..j], task) == FirstAssigner(steps[..i], task)
    decreases j
  {
    if i < j {
      FirstAssignerStays(steps, task, i, j - 1);
      assert steps[..j][..j - 1] == steps[..j - 1];
    }
  }

  lemma {:induction false} FirstAssignerExists(steps: seq<Step>, task: string, j: nat) returns (i: nat)
    requires j <= |steps| && FirstAssigner(steps[..j], task).Some?
    ensures i < j && Assigns(steps[i], task)
    ensures (FirstAssigner(steps[..i + 1], task), FirstAssigner(steps[..j], task)) == (Some(steps[i].node), Some(steps[i].node))
    decreases j
  {
    assert steps[..j][..j - 1] == steps[..j - 1];
    if FirstAssigner(steps[..j - 1], task).Some? {
      i := FirstAssignerExists(steps, task, j - 1);
    } else {
      i := j - 1;
    }
  }

  lemma {:induction false} SeenStays(steps: seq<Step>, i: nat, j: nat)
    requires i <= j <= |steps|
    ensures KeysSeen(steps[..i]) <= KeysSeen(steps[..j])
    decreases j
  {
    if i < j {
      SeenStays(steps, i, j - 1);
      assert steps[..j][..j - 1] == steps[..j - 1];
    }
  }

  lemma FairPrefix(steps: seq<Step>, task: string, i: nat)
    requires FairFor(steps, task) && i <= |steps|
    ensures FairFor(steps[..i], task)
  {}

  /** In any interleaving, all accepted assignments of a task come from one node. */
  lemma AssignedByOneNode(steps: seq<Step>, task: string, i: nat, j: nat)
    requires FairFor(steps, task) && i < j < |steps|
    requires Assigns(steps[i], task) && Assigns(steps[j], task) && Accepted(steps, i) && Accepted(steps, j)
    ensures steps[i].node == steps[j].node
  {
    hide Run, Detect, KeysSeen;
    FairPrefix(steps, task, i + 1);
    FairPrefix(steps, task, j + 1);
    VerdictsFollowFirsts(steps, i, task);
    VerdictsFollowFirsts(steps, j, task);
    FirstAssignerStays(steps, task, i + 1, j + 1);
  }

  /** An accepted completion follows an accepted assignment of the same node. */
  lemma CompletedAfterAssigned(steps: seq<Step>, task: string, j: nat) returns (i: nat)
    requires FairFor(steps, task) && j < |steps| && Completes(steps[j], task) && Accepted(steps, j)
    ensures i < j
    ensures Assigns(steps[i], task)
    ensures Accepted(steps, i) && steps[i].node == steps[j].node
  {
    FairPrefix(steps, task, j + 1);
    VerdictsFollowFirsts(steps, j, task);
    i := FirstAssignerExists(steps, task, j);
    FairPrefix(steps, task, i + 1);
    VerdictsFollowFirsts(steps, i, task);
  }

  /** An idempotency key is accepted at most once, whoever submits it. */
  lemma KeyAcceptedOnce(steps: seq<Step>, key: string, i: nat, j: nat)
    requires i < j < |steps| && Calls(steps[i], key) && Calls(steps[j], key) && Accepted(steps, i)
    ensures !Accepted(steps, j)
  {
    ExecutedIsSeen(steps[..j]);
    assert steps[..i + 1][..i] == steps[..i];
    assert key in KeysSeen(steps[..i + 1]);
    SeenStays(steps, i + 1, j);
  }

  /** A batch is a run of its submissions. */
  lemma {:induction false} BatchIsRun(steps: seq<Step>, node: string, events: seq<ReplayEvent>)
    ensures Run(steps + Submissions(node, events)) == Replayed(Run(steps), node, events)
  {
    if events == [] {
      assert steps + Submissions(node, events) == steps;
    } else {
      var front := events[..|events| - 1];
      BatchIsRun(steps, node, front);
      var all := steps + Submissions(node, events);
      assert all[..|all| - 1] == steps + Submissions(node, front);
    }
  }

  function Submissions(node: string, events: seq<ReplayEvent>): (r: seq<Step>)
    ensures |r| == |events|
  {
    seq(|events|, i requires 0 <= i < |events| => Submit(node, events[i]))
  }

  /** An assignment keeps other nodes out exactly if the node has a name: `arbitrate` itself does
      not check, and an empty id owns nothing. */
  lemma OwnsExactlyIfNamed(s: State, task: string, node: string, other: string, e: ReplayEvent)
    requires Owner(s, task).None? && e.kind.TaskAssign? && e.taskId == Some(task) && other != node
    ensures Detect(s, node, e).1.None?
    ensures Detect(Detect(s, node, e).0, other, e).1 == Some(RejectedDuplicate) <==> node != ""
  {}

  /** Why a completion is refused: nobody has assigned the task, or another node has. */
  lemma RefusalsFollowFirsts(steps: seq<Step>, i: nat, task: string)
    requires i < |steps| && FairFor(steps[..i + 1], task) && Completes(steps[i], task)
    ensures Detect(Run(steps[..i]), steps[i].node, steps[i].event).1 ==
      match FirstAssigner(steps[..i], task)
      case None => Some(RejectedVersionBehind)
      case Some(node) => if node == steps[i].node then None else Some(RejectedDuplicate)
  {
    assert FairFor(steps[..i], task) by {
      forall k | 0 <= k < i ensures steps[..i][k] == steps[..i + 1][k] {}
    }
    OwnerIsFirstAssigner(steps[..i], task);
    hide Run, FirstAssigner;
  }

  /** Events that lack the field their kind is judged by, and those of other kinds, pass and leave
      everything as it is. */
  lemma FieldlessPasses(s: State, node: string, e: ReplayEvent)
    requires match e.kind
      case TaskAssign => e.taskId.None?
      case TaskComplete => e.taskId.None?
      case ToolCall => e.idempotencyKey.None?
      case Other(_) => true
    ensures Detect(s, node, e) == (s, None)
  {}
}
