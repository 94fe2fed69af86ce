/**
 The dispatch worker and its engine tasks in one process, as a state machine.  A step is
 what runs between two suspension points of the event loop, or one database transaction
 as other sessions see it.  The worker polls for pending workflows, later launches an
 engine task for each polled id that is not in flight, and an engine claims its row,
 may commit in the middle of its run, and ends by a commit or by an error.
 */
module Dispatcher {
  import opened Wrappers

  type WorkflowId = nat
  type TaskHandle = nat

  datatype Status = Pending | Running | Succeeded | PartlyDone | Failed

  datatype Pc =
    | Launched                  // created, the row not yet claimed
    | Claimed                   // row locked, `running` written but not committed
    | InProgress                // `running` committed by a mid-run commit
    | Closing                   // final status committed, or nothing to do
    | Finished                  // recovery over, whether it succeeded or not
    | Recovering                // error caught, own transaction rolled back
    | RecoveryRead(seen: Status) // status read by the recovery session

  datatype Engine = Engine(workflow: WorkflowId, pc: Pc)

  /** `touched` collects the workflows with committed step results, and `lost` those whose last
      recovery from `running` failed. */
  datatype State = State(
    committed: map<WorkflowId, Status>,
    touched: set<WorkflowId>,
    lost: set<WorkflowId>,
    inFlight: set<WorkflowId>,
    snapshot: Option<seq<WorkflowId>>,
    engines: map<TaskHandle, Engine>,
    nextHandle: TaskHandle)

  const POLL_LIMIT := 8

  predicate Terminal(s: Status) {
    s != Pending && s != Running
  }

  const INIT := State(map[], {}, {}, {}, None, map[], 0)

  /** The claim is the write of `running`; from it on the engine executes steps. */
  predicate PastClaim(pc: Pc) {
    pc == Claimed || pc == InProgress
  }

  datatype Step =
    | Create(workflow: WorkflowId)
    | Poll(ids: seq<WorkflowId>)
    | PollFailed
    | Launch
    | Claim(task: TaskHandle)
    | MidRunCommit(task: TaskHandle)
    | FinalCommit(task: TaskHandle, status: Status)
    | Crash(task: TaskHandle)
    | ReadForRecovery(task: TaskHandle)
    | CommitRecovery(task: TaskHandle, succeeds: bool)
    | Exit(task: TaskHandle)

  predicate At(s: State, task: TaskHandle, pc: Pc) {
    task in s.engines && s.engines[task].pc == pc
  }

  /** Another session holds the row lock while its claim is not committed. */
  predicate Locked(s: State, workflow: WorkflowId, asker: TaskHandle) {
    exists t :: t in s.engines && t != asker && s.engines[t] == Engine(workflow, Claimed)
  }

  predicate Enabled(s: State, step: Step) {
    match step
    case Create(w) => w !in s.committed
    case Poll(ids) =>
      && s.snapshot.None?
      && |ids| <= POLL_LIMIT
      && forall w :: w in ids ==> w in s.committed && s.committed[w] == Pending
    case PollFailed => s.snapshot.None?
    case Launch => s.snapshot.Some?
    case Claim(t) => At(s, t, Launched) && s.engines[t].workflow in s.committed && !Locked(s, s.engines[t].workflow, t)
    case MidRunCommit(t) => t in s.engines && PastClaim(s.engines[t].pc)
    case FinalCommit(t, status) => t in s.engines && PastClaim(s.engines[t].pc) && Terminal(status)
    case Crash(t) => At(s, t, Launched) || At(s, t, Closing) || (t in s.engines && PastClaim(s.engines[t].pc))
    case ReadForRecovery(t) => At(s, t, Recovering) && s.engines[t].workflow in s.committed
    case CommitRecovery(t, _) => t in s.engines && s.engines[t].pc.RecoveryRead?
    case Exit(t) => At(s, t, Closing) || At(s, t, Finished)
  }

  function Move(s: State, task: TaskHandle, pc: Pc): State
    requires task in s.engines
  {
    s.(engines := s.engines[task := s.engines[task].(pc := pc)])
  }

  function Commit(s: State, workflow: WorkflowId, status: Status): State {
    s.(committed := s.committed[workflow := status])
  }

  /** Launches one engine per id that is not in flight, in list order. */
  function LaunchAll(s: State, ids: seq<WorkflowId>): State
    decreases |ids|
  {
    if ids == [] then s else LaunchOne(LaunchAll(s, ids[..|ids| - 1]), ids[|ids| - 1])
  }

  function LaunchOne(s: State, w: WorkflowId): State {
    if w in s.inFlight then s
    else s.(inFlight := s.inFlight + {w},
            engines := s.engines[s.nextHandle := Engine(w, Launched)],
            nextHandle := s.nextHandle + 1)
  }

  function Apply(s: State, step: Step): State
    requires Enabled(s, step)
  {
    match step
    case Create(w) => Commit(s, w, Pending)
    case Poll(ids) => s.(snapshot := Some(ids))
    case PollFailed => s
    case Launch => LaunchAll(s, s.snapshot.value).(snapshot := None)
    case Claim(t) =>
      Move(s, t, if s.committed[s.engines[t].workflow] == Pending then Claimed else Closing)
    case MidRunCommit(t) =>
      var w := s.engines[t].workflow;
      Commit(Move(s, t, InProgress), w, Running).(touched := s.touched + {w})
    case FinalCommit(t, status) =>
      var w := s.engines[t].workflow;
      Commit(Move(s, t, Closing), w, status).(touched := s.touched + {w})
    case Crash(t) => Move(s, t, Recovering)
    case ReadForRecovery(t) => Move(s, t, RecoveryRead(s.committed[s.engines[t].workflow]))
    case CommitRecovery(t, succeeds) =>
      var e := s.engines[t];
      var s' := Move(s, t, Finished);
      if e.pc.seen != Running then s'
      else if succeeds then Commit(s', e.workflow, Failed).(lost := s.lost - {e.workflow})
      else s'.(lost := s.lost + {e.workflow})
    case Exit(t) => s.(inFlight := s.inFlight - {s.engines[t].workflow}, engines := s.engines - {t})
  }

  /* ---------- the worker's own loop ---------- */

  /** The worker's mutable state: the ids it considers in flight and the tasks it created. */
  class Worker {
    var inFlight: set<WorkflowId>
    var engines: map<TaskHandle, Engine>
    var nextHandle: TaskHandle

    ghost predicate Matches(s: State)
      reads this
    {
      s.inFlight == inFlight && s.engines == engines && s.nextHandle == nextHandle
    }

    /** The launching half of one iteration: it runs without suspension, so it is one step,
        although `pending` may be stale by the time it runs. */
    method LaunchPending(pending: seq<WorkflowId>, ghost s: State)
      requires Matches(s)
      modifies this
      ensures Matches(LaunchAll(s, pending))
    {
      for i := 0 to |pending|
        invariant Matches(LaunchAll(s, pending[..i]))
      {
        assert pending[..i + 1][..i] == pending[..i];
        var w := pending[i];
        if w !in inFlight {
          inFlight := inFlight + {w};
          engines := engines[nextHandle := Engine(w, Launched)];
          nextHandle := nextHandle + 1;
        }
      }
      assert pending[..|pending|] == pending;
    }
  }

  /* ---------- invariant ---------- */

  /** One engine per workflow in flight, and engine and row agree on what was committed. */
  ghost predicate EngineInv(s: State, e: Engine) {
    && e.workflow in s.inFlight
    && e.workflow in s.committed
    && (e.pc == Claimed ==> s.committed[e.workflow] == Pending)
    && (e.pc == InProgress ==> s.committed[e.workflow] == Running && e.workflow !in s.lost)
    && (e.pc.RecoveryRead? ==> s.committed[e.workflow] == e.pc.seen)
  }

  ghost predicate HasEngine(s: State, w: WorkflowId) {
    exists t :: t in s.engines && s.engines[t].workflow == w
  }

  /** Whether an engine answers for a committed `running`. */
  predicate Responsible(pc: Pc) {
    pc == InProgress || pc == Recovering || pc == RecoveryRead(Running)
  }

  ghost predicate HasResponsible(s: State, w: WorkflowId) {
    exists t :: t in s.engines && s.engines[t].workflow == w && Responsible(s.engines[t].pc)
  }

  /** A running row is answered for or lost, and lost rows are running. */
  ghost predicate RunningInv(s: State, w: WorkflowId) {
    && (w in s.committed && s.committed[w] == Running ==> w in s.lost || HasResponsible(s, w))
    && (w in s.lost ==> w in s.committed && s.committed[w] == Running)
  }

  ghost predicate Inv(s: State) {
    && (forall t {:trigger s.engines[t]} :: t in s.engines ==> t < s.nextHandle && EngineInv(s, s.engines[t]))
    && (forall t, u {:trigger s.engines[t], s.engines[u]} ::
          t in s.engines && u in s.engines && s.engines[t].workflow == s.engines[u].workflow ==> t == u)
    && (forall w {:trigger HasEngine(s, w)} :: w in s.inFlight ==> HasEngine(s, w))
    && (forall w :: w in s.committed && s.committed[w] == Pending ==> w !in s.touched)
    && (s.snapshot.Some? ==> forall w :: w in s.snapshot.value ==> w in s.committed)
    && (forall w :: w in s.touched ==> w in s.committed)
    && (forall w {:trigger RunningInv(s, w)} :: RunningInv(s, w))
  }

  lemma LaunchOneKeepsInv(s: State, w: WorkflowId)
    requires Inv(s) && w in s.committed
    ensures Inv(LaunchOne(s, w))
  {
    var s' := LaunchOne(s, w);
    if w !in s.inFlight {
      assert s.nextHandle !in s.engines;
      forall t | t in s'.engines
        ensures t < s'.nextHandle && EngineInv(s', s'.engines[t])
      {
        assert t != s.nextHandle ==> s'.engines[t] == s.engines[t];
      }
      forall v | v in s'.inFlight
        ensures HasEngine(s', v)
      {
        if v == w {
          assert s'.engines[s.nextHandle].workflow == v;
        } else {
          assert HasEngine(s, v);
          var t :| t in s.engines && s.engines[t].workflow == v;
          assert s'.engines[t] == s.engines[t];
        }
      }
      forall v
        ensures RunningInv(s', v)
      {
        assert RunningInv(s, v);
        if HasResponsible(s, v) {
          var t :| t in s.engines && s.engines[t].workflow == v && Responsible(s.engines[t].pc);
          assert s'.engines[t] == s.engines[t];
        }
      }
    }
  }

  lemma {:induction false} LaunchAllKeepsInv(s: State, ids: seq<WorkflowId>)
    requires Inv(s) && forall w :: w in ids ==> w in s.committed
    ensures var s' := LaunchAll(s, ids);
      Inv(s') && s'.committed == s.committed && s'.touched == s.touched && s'.lost == s.lost
          && s'.snapshot == s.snapshot
  {
    if ids != [] {
      LaunchAllKeepsInv(s, ids[..|ids| - 1]);
      LaunchOneKeepsInv(LaunchAll(s, ids[..|ids| - 1]), ids[|ids| - 1]);
    }
  }

  /** What an engine's own step may change: its program counter and its workflow's row. */
  ghost predicate OwnStep(s: State, s': State, t: TaskHandle) {
    && t in s.engines && t in s'.engines
    && s'.inFlight == s.inFlight && s'.nextHandle == s.nextHandle && s'.snapshot == s.snapshot
    && s'.engines == s.engines[t := s.engines[t].(pc := s'.engines[t].pc)]
    && s'.committed.Keys == s.committed.Keys
    && (forall w :: w in s.committed && w != s.engines[t].workflow ==> s'.committed[w] == s.committed[w])
    && s'.touched <= s.touched + {s.engines[t].workflow}
    && (forall w :: w != s.engines[t].workflow ==> (w in s'.lost <==> w in s.lost))
  }

  lemma OtherEnginesUnaffected(s: State, s': State, t: TaskHandle, u: TaskHandle)
    requires Inv(s) && OwnStep(s, s', t) && u in s.engines && u != t
    ensures s'.engines[u] == s.engines[u] && EngineInv(s', s'.engines[u])
  {
    assert EngineInv(s, s.engines[u]);
    assert s.engines[u].workflow != s.engines[t].workflow;
  }

  /** The row of a workflow whose engine does not answer for it is lost, if it is running. */
  lemma NotResponsible(s: State, t: TaskHandle)
    requires Inv(s) && t in s.engines && !Responsible(s.engines[t].pc)
    requires s.engines[t].workflow in s.committed && s.committed[s.engines[t].workflow] == Running
    ensures s.engines[t].workflow in s.lost
  {
    assert RunningInv(s, s.engines[t].workflow);
  }

  lemma OtherRowsUnaffected(s: State, s': State, t: TaskHandle, w: WorkflowId)
    requires Inv(s) && OwnStep(s, s', t) && w != s.engines[t].workflow
    ensures RunningInv(s', w)
  {
    assert RunningInv(s, w);
    if HasResponsible(s, w) {
      var u :| u in s.engines && s.engines[u].workflow == w && Responsible(s.engines[u].pc);
      assert s'.engines[u] == s.engines[u];
    }
  }

  /** What the invariant asks of the row of the engine that moves. */
  ghost predicate OwnRowFits(s': State, t: TaskHandle)
    requires t in s'.engines && s'.engines[t].workflow in s'.committed
  {
    var w := s'.engines[t].workflow;
    && EngineInv(s', s'.engines[t])
    && (s'.committed[w] == Pending ==> w !in s'.touched)
    && (s'.committed[w] == Running ==> w in s'.lost || Responsible(s'.engines[t].pc))
    && (w in s'.lost ==> s'.committed[w] == Running)
  }

  /** A move of one engine together with a change of its own row keeps the invariant. */
  lemma EngineStepKeepsInv(s: State, s': State, t: TaskHandle)
    requires Inv(s) && OwnStep(s, s', t) && s.engines[t].workflow in s.committed && OwnRowFits(s', t)
    ensures Inv(s')
  {
    forall w
      ensures RunningInv(s', w)
    {
      if w != s.engines[t].workflow {
        OtherRowsUnaffected(s, s', t, w);
      } else if Responsible(s'.engines[t].pc) {
        assert HasResponsible(s', w);
      }
    }
    forall u | u in s'.engines
      ensures u < s'.nextHandle && EngineInv(s', s'.engines[u]) && s'.engines[u].workflow == s.engines[u].workflow
    {
      assert u in s.engines && u < s.nextHandle;
      if u != t {
        OtherEnginesUnaffected(s, s', t, u);
      }
    }
    forall w | w in s'.inFlight
      ensures HasEngine(s', w)
    {
      assert HasEngine(s, w);
      var u :| u in s.engines && s.engines[u].workflow == w;
      assert s'.engines[u].workflow == w;
    }
  }

  /** Steps that leave engines and the rows of their workflows alone. */
  lemma SameEnginesKeepInv(s: State, s': State)
    requires Inv(s)
    requires s'.engines == s.engines && s'.inFlight == s.inFlight && s'.nextHandle == s.nextHandle
    requires s'.touched == s.touched && s'.lost == s.lost
    requires forall w :: w in s'.committed && w !in s.committed ==> s'.committed[w] == Pending
    requires forall w :: w in s.committed ==> w in s'.committed && s'.committed[w] == s.committed[w]
    requires s'.snapshot.Some? ==> forall w :: w in s'.snapshot.value ==> w in s'.committed
    requires forall w :: w in s'.committed && w !in s.committed ==> w !in s.touched
    ensures Inv(s')
  {
    forall w
      ensures RunningInv(s', w)
    {
      assert RunningInv(s, w);
      assert HasResponsible(s, w) ==> HasResponsible(s', w);
    }
    forall w | w in s'.inFlight
      ensures HasEngine(s', w)
    {
      assert HasEngine(s, w);
    }
  }

  lemma ExitKeepsInv(s: State, t: TaskHandle)
    requires Inv(s) && Enabled(s, Exit(t))
    ensures Inv(Apply(s, Exit(t)))
  {
    var s' := Apply(s, Exit(t));
    var e := s.engines[t];
    forall u | u in s'.engines
      ensures u < s'.nextHandle && EngineInv(s', s'.engines[u])
    {
      assert s'.engines[u] == s.engines[u] && u != t;
      assert s.engines[u].workflow != e.workflow;
    }
    forall w | w in s'.inFlight
      ensures HasEngine(s', w)
    {
      assert HasEngine(s, w);
      var u :| u in s.engines && s.engines[u].workflow == w;
      assert u != t && s'.engines[u] == s.engines[u];
    }
    forall w
      ensures RunningInv(s', w)
    {
      assert RunningInv(s, w);
      if HasResponsible(s, w) {
        var u :| u in s.engines && s.engines[u].workflow == w && Responsible(s.engines[u].pc);
        assert u != t && s'.engines[u] == s.engines[u];
      }
    }
  }

  ghost predicate IsMoveOf(step: Step, t: TaskHandle) {
    step == Claim(t) || step == MidRunCommit(t) || (step.FinalCommit? && step.task == t)
      || step == Crash(t) || step == ReadForRecovery(t) || (step.CommitRecovery? && step.task == t)
  }

  lemma MoveIsOwnStep(s: State, step: Step, t: TaskHandle)
    requires Inv(s) && Enabled(s, step) && IsMoveOf(step, t)
    ensures s.engines[t].workflow in s.committed && OwnStep(s, Apply(s, step), t)
  {
    assert EngineInv(s, s.engines[t]);
  }

  lemma MoveFits(s: State, step: Step, t: TaskHandle)
    requires Inv(s) && Enabled(s, step) && IsMoveOf(step, t)
    requires s.engines[t].workflow in s.committed && OwnStep(s, Apply(s, step), t)
    ensures OwnRowFits(Apply(s, step), t)
  {
    var w := s.engines[t].workflow;
    assert EngineInv(s, s.engines[t]) && RunningInv(s, w);
    if s.committed[w] == Running && !Responsible(s.engines[t].pc) {
      NotResponsible(s, t);
    }
  }

  lemma EngineMoveKeepsInv(s: State, step: Step, t: TaskHandle)
    requires Inv(s) && Enabled(s, step) && IsMoveOf(step, t)
    ensures Inv(Apply(s, step))
  {
    MoveIsOwnStep(s, step, t);
    MoveFits(s, step, t);
    EngineStepKeepsInv(s, Apply(s, step), t);
  }

  lemma StepKeepsInv(s: State, step: Step)
    requires Inv(s) && Enabled(s, step)
    ensures Inv(Apply(s, step))
  {
    var s' := Apply(s, step);
    match step {
      case Create(w) =>
        assert w !in s.touched;
        SameEnginesKeepInv(s, s');
      case Poll(ids) =>
        SameEnginesKeepInv(s, s');
      case PollFailed =>
      case Launch =>
        LaunchAllKeepsInv(s, s.snapshot.value);
        SameEnginesKeepInv(LaunchAll(s, s.snapshot.value), s');
      case Claim(t) => EngineMoveKeepsInv(s, step, t);
      case MidRunCommit(t) => EngineMoveKeepsInv(s, step, t);
      case FinalCommit(t, _) => EngineMoveKeepsInv(s, step, t);
      case Crash(t) => EngineMoveKeepsInv(s, step, t);
      case ReadForRecovery(t) => EngineMoveKeepsInv(s, step, t);
      case CommitRecovery(t, _) => EngineMoveKeepsInv(s, step, t);
      case Exit(t) => ExitKeepsInv(s, t);
    }
  }

  /* ---------- runs ---------- */

  /** `states` is a run that takes the given steps from the empty process. */
  ghost predicate IsRun(states: seq<State>, steps: seq<Step>) {
    && |states| == |steps| + 1
    && states[0] == INIT
    && forall i :: 0 <= i < |steps| ==> Enabled(states[i], steps[i]) && states[i + 1] == Apply(states[i], steps[i])
  }

  lemma {:induction false} RunKeepsInv(states: seq<State>, steps: seq<Step>, i: nat)
    requires IsRun(states, steps) && i < |states|
    ensures Inv(states[i])
  {
    if i > 0 {
      RunKeepsInv(states, steps, i - 1);
      StepKeepsInv(states[i - 1], steps[i - 1]);
    }
  }

  /** Mutual exclusion: in every reachable state at most one engine is past the claim of a
      workflow, on a row that is not final; in fact at most one engine task exists for it. */
  lemma OneEnginePerWorkflow(states: seq<State>, steps: seq<Step>, i: nat, t: TaskHandle, u: TaskHandle)
    requires IsRun(states, steps) && i < |states|
    requires t in states[i].engines && u in states[i].engines
    requires states[i].engines[t].workflow == states[i].engines[u].workflow
    ensures t == u
    ensures states[i].engines[t].workflow in states[i].inFlight
    ensures var s, w := states[i], states[i].engines[t].workflow;
      PastClaim(s.engines[t].pc) ==> w in s.committed && !Terminal(s.committed[w])
  {
    RunKeepsInv(states, steps, i);
    assert EngineInv(states[i], states[i].engines[t]);
  }

  /** The in-memory set is exact: in every reachable state it holds a workflow if and only if an
      engine task exists for it, so no workflow is kept from being dispatched by a dead entry. */
  lemma InFlightIffEngine(states: seq<State>, steps: seq<Step>, i: nat, w: WorkflowId)
    requires IsRun(states, steps) && i < |states|
    ensures w in states[i].inFlight <==> HasEngine(states[i], w)
  {
    RunKeepsInv(states, steps, i);
    EngineInFlight(states[i], w);
  }

  /** A workflow is stuck in `running`, with no engine to finish it, exactly if it has no engine and
      its last recovery from `running` failed. */
  lemma StuckIffRecoveryFailed(states: seq<State>, steps: seq<Step>, i: nat, w: WorkflowId)
    requires IsRun(states, steps) && i < |states|
    ensures var s := states[i];
      w in s.committed && s.committed[w] == Running && !HasEngine(s, w) <==> w in s.lost && !HasEngine(s, w)
  {
    RunKeepsInv(states, steps, i);
    assert RunningInv(states[i], w);
    assert HasResponsible(states[i], w) ==> HasEngine(states[i], w);
  }

  /** The recoveries of a workflow from a committed `running`. */
  predicate RecoversFrom(s: State, step: Step, w: WorkflowId) {
    step.CommitRecovery? && step.task in s.engines && s.engines[step.task] == Engine(w, RecoveryRead(Running))
  }

  lemma LostAfter(s: State, step: Step, w: WorkflowId)
    requires Inv(s) && Enabled(s, step)
    ensures w in Apply(s, step).lost <==> if RecoversFrom(s, step, w) then !step.succeeds else w in s.lost
  {
    if step.Launch? {
      LaunchAllKeepsInv(s, s.snapshot.value);
    }
  }

  /** Some recovery of the workflow from `running` failed in the first `i` steps, and none of them since
      then succeeded. */
  ghost predicate LastRecoveryFailed(states: seq<State>, steps: seq<Step>, i: nat, w: WorkflowId)
    requires i <= |steps| && |states| == |steps| + 1
  {
    exists j :: 0 <= j < i && RecoversFrom(states[j], steps[j], w) && !steps[j].succeeds
      && forall k :: j < k < i ==> !(RecoversFrom(states[k], steps[k], w) && steps[k].succeeds)
  }

  lemma LastRecoveryAfter(states: seq<State>, steps: seq<Step>, i: nat, w: WorkflowId)
    requires i < |steps| && |states| == |steps| + 1
    ensures LastRecoveryFailed(states, steps, i + 1, w)
       <==> if RecoversFrom(states[i], steps[i], w) then !steps[i].succeeds else LastRecoveryFailed(states, steps, i, w)
  {
    if !RecoversFrom(states[i], steps[i], w) && LastRecoveryFailed(states, steps, i, w) {
      var j :| 0 <= j < i && RecoversFrom(states[j], steps[j], w) && !steps[j].succeeds
        && forall k :: j < k < i ==> !(RecoversFrom(states[k], steps[k], w) && steps[k].succeeds);
      assert RecoversFrom(states[j], steps[j], w);
    }
  }

  /** What it means to be lost: the last recovery of the workflow failed. */
  lemma {:induction false} LostIffLastRecoveryFailed(states: seq<State>, steps: seq<Step>, i: nat, w: WorkflowId)
    requires IsRun(states, steps) && i < |states|
    ensures w in states[i].lost <==> LastRecoveryFailed(states, steps, i, w)
  {
    if i > 0 {
      LostIffLastRecoveryFailed(states, steps, i - 1, w);
      RunKeepsInv(states, steps, i - 1);
      LostAfter(states[i - 1], steps[i - 1], w);
      LastRecoveryAfter(states, steps, i - 1, w);
    }
  }

  /** The moves a committed status may make. */
  predicate Forward(a: Status, b: Status) {
    a == b || a == Pending || (a == Running && Terminal(b))
  }

  lemma StepMovesForward(s: State, step: Step, w: WorkflowId)
    requires Inv(s) && Enabled(s, step) && w in s.committed
    ensures w in Apply(s, step).committed && Forward(s.committed[w], Apply(s, step).committed[w])
    ensures w in s.touched ==> w in Apply(s, step).touched
  {
    if step.Launch? {
      LaunchAllKeepsInv(s, s.snapshot.value);
    }
  }

  /** Over every run a committed status only moves pending, running, terminal. */
  lemma {:induction false} StatusMovesForward(states: seq<State>, steps: seq<Step>, i: nat, j: nat, w: WorkflowId)
    requires IsRun(states, steps) && i <= j < |states| && w in states[i].committed
    ensures w in states[j].committed && Forward(states[i].committed[w], states[j].committed[w])
    decreases j
  {
    if i < j {
      StatusMovesForward(states, steps, i, j - 1, w);
      RunKeepsInv(states, steps, j - 1);
      StepMovesForward(states[j - 1], steps[j - 1], w);
    }
  }

  /* ---------- what the committed status says ---------- */

  /** A step of an engine of the workflow. */
  predicate ByEngineOf(s: State, task: TaskHandle, w: WorkflowId) {
    task in s.engines && s.engines[task].workflow == w
  }

  /** A step that ends a workflow with a status: a final commit with that status by its engine, or a
      recovery from `running` that succeeds, which is a failure. */
  predicate Ends(s: State, step: Step, w: WorkflowId, status: Status) {
    || (step.FinalCommit? && ByEngineOf(s, step.task, w) && step.status == status)
    || (RecoversFrom(s, step, w) && step.succeeds && status == Failed)
  }

  ghost predicate EndedWith(states: seq<State>, steps: seq<Step>, i: nat, w: WorkflowId, status: Status)
    requires i <= |steps| && |states| == |steps| + 1
  {
    exists j :: 0 <= j < i && Ends(states[j], steps[j], w, status)
  }

  /** A step that shows a workflow as running, or its results so far. */
  predicate Shows(s: State, step: Step, w: WorkflowId) {
    step.MidRunCommit? && ByEngineOf(s, step.task, w)
  }

  ghost predicate WasShown(states: seq<State>, steps: seq<Step>, i: nat, w: WorkflowId)
    requires i <= |steps| && |states| == |steps| + 1
  {
    exists j :: 0 <= j < i && Shows(states[j], steps[j], w)
  }

  function Get(committed: map<WorkflowId, Status>, w: WorkflowId): Option<Status> {
    if w in committed then Some(committed[w]) else None
  }

  lemma StatusAfter(s: State, step: Step, w: WorkflowId)
    requires Inv(s) && Enabled(s, step)
    ensures var before, after := Get(s.committed, w), Get(Apply(s, step).committed, w);
      && (forall status :: Ends(s, step, w, status) ==>
            Terminal(status) && after == Some(status) && (before == Some(Pending) || before == Some(Running)))
      && (Shows(s, step, w) ==> after == Some(Running) && (before == Some(Pending) || before == Some(Running)))
      && ((forall status :: !Ends(s, step, w, status)) && !Shows(s, step, w) ==>
            after == if step == Create(w) then Some(Pending) else before)
  {
    if step.Launch? {
      LaunchAllKeepsInv(s, s.snapshot.value);
    }
    if step.FinalCommit? && ByEngineOf(s, step.task, w) {
      assert Ends(s, step, w, step.status);
      assert EngineInv(s, s.engines[step.task]);
    }
    if RecoversFrom(s, step, w) && step.succeeds {
      assert Ends(s, step, w, Failed);
      assert EngineInv(s, s.engines[step.task]);
    }
    if Shows(s, step, w) {
      assert EngineInv(s, s.engines[step.task]);
    }
  }

  lemma EndedNext(states: seq<State>, steps: seq<Step>, i: nat, w: WorkflowId, status: Status)
    requires i < |steps| && |states| == |steps| + 1
    ensures EndedWith(states, steps, i + 1, w, status)
       <==> EndedWith(states, steps, i, w, status) || Ends(states[i], steps[i], w, status)
  {
  }

  lemma ShownNext(states: seq<State>, steps: seq<Step>, i: nat, w: WorkflowId)
    requires i < |steps| && |states| == |steps| + 1
    ensures WasShown(states, steps, i + 1, w) <==> WasShown(states, steps, i, w) || Shows(states[i], steps[i], w)
  {
  }

  /** Over every run: a workflow has a final status if and only if an engine of it committed that very
      status, or, for a failure, a recovery of it from `running` succeeded; and it is running if and
      only if results of it were shown and nothing ended it. */
  lemma {:induction false} StatusIff(states: seq<State>, steps: seq<Step>, i: nat, w: WorkflowId)
    requires IsRun(states, steps) && i < |states|
    ensures var now := Get(states[i].committed, w);
      && (forall status :: Terminal(status) ==> (now == Some(status) <==> EndedWith(states, steps, i, w, status)))
      && (now == Some(Running)
          <==> WasShown(states, steps, i, w) && forall status :: !EndedWith(states, steps, i, w, status))
  {
    if i > 0 {
      var j := i - 1;
      StatusIff(states, steps, j, w);
      RunKeepsInv(states, steps, j);
      StatusAfter(states[j], steps[j], w);
      ShownNext(states, steps, j, w);
      forall status
        ensures EndedWith(states, steps, i, w, status)
           <==> EndedWith(states, steps, j, w, status) || Ends(states[j], steps[j], w, status)
      {
        EndedNext(states, steps, j, w, status);
      }
    }
  }

  /** Over every run: the results of a workflow are committed if and only if an engine of it made a
      commit, in the middle or at the end of its run. */
  lemma {:induction false} TouchedIff(states: seq<State>, steps: seq<Step>, i: nat, w: WorkflowId)
    requires IsRun(states, steps) && i < |states|
    ensures w in states[i].touched <==>
              exists j :: 0 <= j < i && (steps[j].MidRunCommit? || steps[j].FinalCommit?)
                && ByEngineOf(states[j], steps[j].task, w)
  {
    if i > 0 {
      var s, step := states[i - 1], steps[i - 1];
      TouchedIff(states, steps, i - 1, w);
      RunKeepsInv(states, steps, i - 1);
      TouchedAfter(s, step, w);
    }
  }

  lemma TouchedAfter(s: State, step: Step, w: WorkflowId)
    requires Inv(s) && Enabled(s, step)
    ensures w in Apply(s, step).touched
       <==> w in s.touched || ((step.MidRunCommit? || step.FinalCommit?) && ByEngineOf(s, step.task, w))
  {
    if step.Launch? {
      LaunchAllKeepsInv(s, s.snapshot.value);
    }
  }

  /* ---------- what a poll leads to ---------- */

  /** Launching gives every id of the list an engine: the one it has, or a new one at its start; no
      other workflow gets one, and the engines at work are left alone. */
  lemma {:induction false} LaunchCovers(s: State, ids: seq<WorkflowId>, w: WorkflowId)
    requires Inv(s) && forall v :: v in ids ==> v in s.committed
    ensures var s' := LaunchAll(s, ids);
      && (HasEngine(s', w) <==> HasEngine(s, w) || w in ids)
      && (forall t :: t in s.engines ==> t in s'.engines && s'.engines[t] == s.engines[t])
      && (forall t :: t in s'.engines && t !in s.engines ==>
            s'.engines[t].pc == Launched && !HasEngine(s, s'.engines[t].workflow))
      && s'.nextHandle >= s.nextHandle
    decreases |ids|
  {
    if ids != [] {
      var before, v := ids[..|ids| - 1], ids[|ids| - 1];
      LaunchCovers(s, before, w);
      LaunchCovers(s, before, v);
      LaunchAllKeepsInv(s, before);
      assert ids == before + [v];
      LaunchOneCovers(LaunchAll(s, before), v, w);
    }
  }

  lemma EngineInFlight(s: State, w: WorkflowId)
    requires Inv(s)
    ensures w in s.inFlight <==> HasEngine(s, w)
  {
    if HasEngine(s, w) {
      var t :| t in s.engines && s.engines[t].workflow == w;
      assert EngineInv(s, s.engines[t]);
    }
  }

  lemma LaunchOneCovers(s: State, v: WorkflowId, w: WorkflowId)
    requires Inv(s)
    ensures var s' := LaunchOne(s, v);
      && (HasEngine(s', w) <==> HasEngine(s, w) || w == v)
      && (forall t :: t in s.engines ==> t in s'.engines && s'.engines[t] == s.engines[t])
      && (forall t :: t in s'.engines && t !in s.engines ==>
            s'.engines[t] == Engine(v, Launched) && !HasEngine(s, v))
      && s'.nextHandle >= s.nextHandle
  {
    var s' := LaunchOne(s, v);
    if HasEngine(s, w) {
      var t :| t in s.engines && s.engines[t].workflow == w;
      assert t != s.nextHandle && s'.engines[t] == s.engines[t];
    }
    EngineInFlight(s, v);
    if v !in s.inFlight {
      assert s'.engines[s.nextHandle].workflow == v;
    }
  }

  /** Within one process the row lock never blocks a claim: no other engine of the workflow exists. */
  lemma NeverBlocked(states: seq<State>, steps: seq<Step>, i: nat, t: TaskHandle)
    requires IsRun(states, steps) && i < |states| && At(states[i], t, Launched)
    ensures !Locked(states[i], states[i].engines[t].workflow, t) && Enabled(states[i], Claim(t))
  {
    RunKeepsInv(states, steps, i);
    var s := states[i];
    assert EngineInv(s, s.engines[t]);
    if u :| u in s.engines && u != t && s.engines[u] == Engine(s.engines[t].workflow, Claimed) {
      OneEnginePerWorkflow(states, steps, i, t, u);
    }
  }

  /** A poll that listed a workflow while it was pending. */
  predicate Lists(s: State, step: Step, w: WorkflowId) {
    step.Poll? && w in step.ids && w in s.committed && s.committed[w] == Pending
  }

  ghost predicate WasListed(states: seq<State>, steps: seq<Step>, i: nat, w: WorkflowId)
    requires i <= |steps| && |states| == |steps| + 1
  {
    exists j :: 0 <= j < i && Lists(states[j], steps[j], w)
  }

  /** Over every run: a poll lists at most eight workflows, each of them pending, and only such workflows
      are waiting to be launched or have an engine. */
  lemma {:induction false} OnlyListedRun(states: seq<State>, steps: seq<Step>, i: nat, w: WorkflowId)
    requires IsRun(states, steps) && i < |states|
    ensures var s := states[i];
      && (s.snapshot.Some? ==> |s.snapshot.value| <= 8)
      && (s.snapshot.Some? && w in s.snapshot.value ==> WasListed(states, steps, i, w))
      && (HasEngine(s, w) ==> WasListed(states, steps, i, w))
  {
    if i > 0 {
      var s, step := states[i - 1], steps[i - 1];
      OnlyListedRun(states, steps, i - 1, w);
      RunKeepsInv(states, steps, i - 1);
      assert WasListed(states, steps, i - 1, w) || Lists(s, step, w) ==> WasListed(states, steps, i, w);
      if step.Launch? {
        LaunchCovers(s, s.snapshot.value, w);
      } else {
        EngineStays(s, step, w);
      }
    }
  }

  lemma EngineStays(s: State, step: Step, w: WorkflowId)
    requires Inv(s) && Enabled(s, step) && !step.Launch?
    ensures HasEngine(Apply(s, step), w) ==> HasEngine(s, w)
  {
    var s' := Apply(s, step);
    if HasEngine(s', w) {
      var t :| t in s'.engines && s'.engines[t].workflow == w;
      assert t in s.engines && s.engines[t].workflow == w;
    }
  }

  /** A claim that is not blocked succeeds if and only if the row is pending; otherwise the engine has
      nothing to do. */
  lemma ClaimSucceedsIff(s: State, t: TaskHandle)
    requires Inv(s) && Enabled(s, Claim(t))
    ensures var s', w := Apply(s, Claim(t)), s.engines[t].workflow;
      && s' == s.(engines := s'.engines)
      && (At(s', t, Claimed) <==> s.committed[w] == Pending)
      && (At(s', t, Closing) <==> s.committed[w] != Pending)
  {
  }

  /** Whether all the steps of a list can be taken, and where they lead. */
  ghost predicate CanTake(s: State, steps: seq<Step>, s': State)
    decreases |steps|
  {
    if steps == [] then s == s'
    else Enabled(s, steps[0]) && CanTake(Apply(s, steps[0]), steps[1..], s')
  }

  lemma OneMore(s: State, step: Step, rest: seq<Step>, s': State)
    requires Enabled(s, step) && CanTake(Apply(s, step), rest, s')
    ensures CanTake(s, [step] + rest, s')
  {
    assert ([step] + rest)[1..] == rest;
  }

  lemma TwoSteps(s: State, x: Step, y: Step)
    requires Enabled(s, x) && Enabled(Apply(s, x), y)
    ensures CanTake(s, [x, y], Apply(Apply(s, x), y))
  {
    var last := Apply(Apply(s, x), y);
    assert CanTake(last, [], last);
    OneMore(Apply(s, x), y, [], last);
    OneMore(s, x, [y], last);
    assert [y] + [] == [y] && [x] + [y] == [x, y];
  }

  lemma FourSteps(s: State, x: Step, y: Step, z: Step, u: Step, s': State)
    requires Enabled(s, x) && Enabled(Apply(s, x), y) && CanTake(Apply(Apply(s, x), y), [z, u], s')
    ensures CanTake(s, [x, y, z, u], s')
  {
    OneMore(Apply(s, x), y, [z, u], s');
    OneMore(s, x, [y, z, u], s');
    assert [y] + [z, u] == [y, z, u] && [x] + [y, z, u] == [x, y, z, u];
  }

  /** The state with a new engine of the workflow at a point of its run. */
  function Working(s: State, w: WorkflowId, pc: Pc): State {
    s.(inFlight := s.inFlight + {w}, engines := s.engines[s.nextHandle := Engine(w, pc)],
       nextHandle := s.nextHandle + 1)
  }

  /** The state after a complete run of the workflow: its status and results are committed. */
  function Completed(s: State, w: WorkflowId, status: Status): State {
    s.(committed := s.committed[w := status], touched := s.touched + {w}, nextHandle := s.nextHandle + 1)
  }

  /** No poll is under way, and a pending workflow has no engine. */
  ghost predicate Waiting(s: State, w: WorkflowId) {
    Inv(s) && s.snapshot.None? && Get(s.committed, w) == Some(Pending) && !HasEngine(s, w)
  }

  lemma WaitingIsLaunched(s: State, w: WorkflowId)
    requires Waiting(s, w)
    ensures Enabled(s, Poll([w])) && Enabled(Apply(s, Poll([w])), Launch)
    ensures Apply(Apply(s, Poll([w])), Launch) == Working(s, w, Launched)
  {
    EngineInFlight(s, w);
    var s1 := Apply(s, Poll([w]));
    assert [w][..0] == [] && LaunchAll(s1, []) == s1;
    assert LaunchAll(s1, [w]) == LaunchOne(s1, w);
  }

  lemma LaunchedIsClaimed(s: State, w: WorkflowId)
    requires Waiting(s, w)
    ensures var t := s.nextHandle;
      && Enabled(Working(s, w, Launched), Claim(t))
      && Apply(Working(s, w, Launched), Claim(t)) == Working(s, w, Claimed)
  {
    var launched, t := Working(s, w, Launched), s.nextHandle;
    assert t !in s.engines;
    assert forall u :: u in launched.engines && u != t ==> launched.engines[u] == s.engines[u];
    assert launched.engines[t := Engine(w, Claimed)] == s.engines[t := Engine(w, Claimed)];
  }

  lemma ClaimedFinishes(s: State, w: WorkflowId, status: Status)
    requires Waiting(s, w) && Terminal(status)
    ensures CanTake(Working(s, w, Claimed), [FinalCommit(s.nextHandle, status), Exit(s.nextHandle)],
                    Completed(s, w, status))
  {
    var t, claimed := s.nextHandle, Working(s, w, Claimed);
    EngineInFlight(s, w);
    assert t !in s.engines;
    TwoSteps(claimed, FinalCommit(t, status), Exit(t));
    var b := Apply(Apply(claimed, FinalCommit(t, status)), Exit(t));
    assert b.engines == s.engines && b.inFlight == s.inFlight;
  }

  /** The state in which the engine has shown results. */
  function Showing(s: State, w: WorkflowId): State {
    Working(s, w, InProgress).(committed := s.committed[w := Running], touched := s.touched + {w})
  }

  lemma ClaimedShows(s: State, w: WorkflowId)
    requires Waiting(s, w)
    ensures Enabled(Working(s, w, Claimed), MidRunCommit(s.nextHandle))
    ensures Apply(Working(s, w, Claimed), MidRunCommit(s.nextHandle)) == Showing(s, w)
  {
    var t := s.nextHandle;
    assert s.engines[t := Engine(w, Claimed)][t := Engine(w, InProgress)] == s.engines[t := Engine(w, InProgress)];
  }

  lemma ShowingFinishes(s: State, w: WorkflowId, status: Status)
    requires Waiting(s, w) && Terminal(status)
    ensures CanTake(Showing(s, w), [FinalCommit(s.nextHandle, status), Exit(s.nextHandle)], Completed(s, w, status))
  {
    var t := s.nextHandle;
    EngineInFlight(s, w);
    assert t !in s.engines;
    TwoSteps(Showing(s, w), FinalCommit(t, status), Exit(t));
    var b := Apply(Apply(Showing(s, w), FinalCommit(t, status)), Exit(t));
    assert b.engines == s.engines && b.inFlight == s.inFlight;
    assert b.committed == s.committed[w := status] && b.touched == s.touched + {w};
  }

  lemma ClaimedShowsAndFinishes(s: State, w: WorkflowId, status: Status)
    requires Waiting(s, w) && Terminal(status)
    ensures CanTake(Working(s, w, Claimed),
                    [MidRunCommit(s.nextHandle), FinalCommit(s.nextHandle, status), Exit(s.nextHandle)],
                    Completed(s, w, status))
  {
    var t := s.nextHandle;
    ClaimedShows(s, w);
    ShowingFinishes(s, w, status);
    OneMore(Working(s, w, Claimed), MidRunCommit(t), [FinalCommit(t, status), Exit(t)], Completed(s, w, status));
    assert [MidRunCommit(t)] + [FinalCommit(t, status), Exit(t)] == [MidRunCommit(t), FinalCommit(t, status), Exit(t)];
  }

  /** The steps up to the claim in front of others. */
  lemma ClaimedFirst(s: State, w: WorkflowId, rest: seq<Step>, s': State)
    requires Waiting(s, w) && CanTake(Working(s, w, Claimed), rest, s')
    ensures CanTake(s, [Poll([w]), Launch, Claim(s.nextHandle)] + rest, s')
  {
    var t := s.nextHandle;
    WaitingIsLaunched(s, w);
    LaunchedIsClaimed(s, w);
    OneMore(Working(s, w, Launched), Claim(t), rest, s');
    OneMore(Apply(s, Poll([w])), Launch, [Claim(t)] + rest, s');
    OneMore(s, Poll([w]), [Launch] + ([Claim(t)] + rest), s');
    assert [Poll([w])] + ([Launch] + ([Claim(t)] + rest)) == [Poll([w]), Launch, Claim(t)] + rest;
  }

  /** No pending workflow is out of reach: whenever no poll is under way and it has no engine, polling it
      and launching its engine lets the engine commit any final status and leave nothing behind, with
      or without showing results on the way. */
  lemma WaitingCanFinish(s: State, w: WorkflowId, status: Status)
    requires Waiting(s, w) && Terminal(status)
    ensures var t := s.nextHandle;
      && CanTake(s, [Poll([w]), Launch, Claim(t)] + [FinalCommit(t, status), Exit(t)], Completed(s, w, status))
      && CanTake(s, [Poll([w]), Launch, Claim(t)] + [MidRunCommit(t), FinalCommit(t, status), Exit(t)],
                 Completed(s, w, status))
  {
    var t := s.nextHandle;
    ClaimedFinishes(s, w, status);
    ClaimedShowsAndFinishes(s, w, status);
    ClaimedFirst(s, w, [FinalCommit(t, status), Exit(t)], Completed(s, w, status));
    ClaimedFirst(s, w, [MidRunCommit(t), FinalCommit(t, status), Exit(t)], Completed(s, w, status));
  }

  /** The state in which the recovery of an engine has read the status of its row. */
  function Recovery(s: State, t: TaskHandle, seen: Status): State {
    s.(engines := s.engines[t := Engine(if t in s.engines then s.engines[t].workflow else 0, RecoveryRead(seen))])
  }

  lemma CrashIsRead(s: State, t: TaskHandle)
    requires t in s.engines && s.engines[t].pc in {Launched, Claimed, InProgress, Closing}
    requires s.engines[t].workflow in s.committed
    ensures Enabled(s, Crash(t)) && Enabled(Apply(s, Crash(t)), ReadForRecovery(t))
    ensures Apply(Apply(s, Crash(t)), ReadForRecovery(t)) == Recovery(s, t, s.committed[s.engines[t].workflow])
  {
  }

  /** Where a recovery that has read the status of its row leads, with the engine gone. */
  function Recovered(x: State, s: State, w: WorkflowId, seen: Status, succeeds: bool): State {
    x.(engines := s.engines, inFlight := s.inFlight,
       committed := if seen == Running && succeeds then x.committed[w := Failed] else x.committed,
       lost := if seen != Running then x.lost else if succeeds then x.lost - {w} else x.lost + {w})
  }

  lemma RecoveryLeaves(x: State, s: State, t: TaskHandle, w: WorkflowId, seen: Status, succeeds: bool)
    requires t !in s.engines && w !in s.inFlight && x.inFlight == s.inFlight + {w}
    requires x.engines == s.engines[t := Engine(w, RecoveryRead(seen))]
    ensures CanTake(x, [CommitRecovery(t, succeeds), Exit(t)], Recovered(x, s, w, seen, succeeds))
  {
    TwoSteps(x, CommitRecovery(t, succeeds), Exit(t));
    var d := Apply(Apply(x, CommitRecovery(t, succeeds)), Exit(t));
    assert d.engines == s.engines && d.inFlight == s.inFlight;
  }

  /** The ways an engine that crashes after showing results can end: its recovery leaves a failed
      workflow behind or, if it fails itself, a running one without an engine. */
  lemma CrashedShowing(s: State, w: WorkflowId, succeeds: bool)
    requires Waiting(s, w)
    ensures var t := s.nextHandle;
      CanTake(Showing(s, w), [Crash(t), ReadForRecovery(t), CommitRecovery(t, succeeds), Exit(t)],
              Completed(s, w, if succeeds then Failed else Running).(lost := if succeeds then s.lost else s.lost + {w}))
  {
    var t := s.nextHandle;
    EngineInFlight(s, w);
    assert t !in s.engines && RunningInv(s, w);
    CrashIsRead(Showing(s, w), t);
    var b := Recovery(Showing(s, w), t, Running);
    assert b.engines == s.engines[t := Engine(w, RecoveryRead(Running))];
    RecoveryLeaves(b, s, t, w, Running, succeeds);
    FourSteps(Showing(s, w), Crash(t), ReadForRecovery(t), CommitRecovery(t, succeeds), Exit(t),
              Recovered(b, s, w, Running, succeeds));
    assert b.committed[w := Failed] == s.committed[w := Failed] && s.lost - {w} == s.lost;
    assert Recovered(b, s, w, Running, succeeds)
        == Completed(s, w, if succeeds then Failed else Running).(lost := if succeeds then s.lost else s.lost + {w});
  }

  /** An engine that crashes before it showed anything leaves the workflow pending for a later poll. */
  lemma CrashedClaimed(s: State, w: WorkflowId, succeeds: bool)
    requires Waiting(s, w)
    ensures var t := s.nextHandle;
      && CanTake(Working(s, w, Claimed), [Crash(t), ReadForRecovery(t), CommitRecovery(t, succeeds), Exit(t)],
                 s.(nextHandle := t + 1))
      && Waiting(s.(nextHandle := t + 1), w)
  {
    var t := s.nextHandle;
    EngineInFlight(s, w);
    assert t !in s.engines;
    CrashIsRead(Working(s, w, Claimed), t);
    var b := Recovery(Working(s, w, Claimed), t, Pending);
    assert b.engines == s.engines[t := Engine(w, RecoveryRead(Pending))];
    RecoveryLeaves(b, s, t, w, Pending, succeeds);
    FourSteps(Working(s, w, Claimed), Crash(t), ReadForRecovery(t), CommitRecovery(t, succeeds), Exit(t),
              Recovered(b, s, w, Pending, succeeds));
    MoreHandles(s);
  }

  /** The state in which the engine has committed a final status but not left yet. */
  function Committed(s: State, w: WorkflowId, status: Status): State {
    Working(s, w, Closing).(committed := s.committed[w := status], touched := s.touched + {w})
  }

  lemma ClaimedCommits(s: State, w: WorkflowId, status: Status)
    requires Waiting(s, w) && Terminal(status)
    ensures Enabled(Working(s, w, Claimed), FinalCommit(s.nextHandle, status))
    ensures Apply(Working(s, w, Claimed), FinalCommit(s.nextHandle, status)) == Committed(s, w, status)
  {
    var t := s.nextHandle;
    assert s.engines[t := Engine(w, Claimed)][t := Engine(w, Closing)] == s.engines[t := Engine(w, Closing)];
  }

  /** A crash after the final commit changes nothing: the recovery finds the status and leaves it. */
  lemma CrashedClosing(s: State, w: WorkflowId, status: Status, succeeds: bool)
    requires Waiting(s, w) && Terminal(status)
    ensures var t := s.nextHandle;
      CanTake(Committed(s, w, status), [Crash(t), ReadForRecovery(t), CommitRecovery(t, succeeds), Exit(t)],
              Completed(s, w, status))
  {
    var t := s.nextHandle;
    EngineInFlight(s, w);
    assert t !in s.engines;
    CrashIsRead(Committed(s, w, status), t);
    var b := Recovery(Committed(s, w, status), t, status);
    assert b.engines == s.engines[t := Engine(w, RecoveryRead(status))];
    RecoveryLeaves(b, s, t, w, status, succeeds);
    FourSteps(Committed(s, w, status), Crash(t), ReadForRecovery(t), CommitRecovery(t, succeeds), Exit(t),
              Recovered(b, s, w, status, succeeds));
  }

  lemma MoreHandles(s: State)
    requires Inv(s)
    ensures Inv(s.(nextHandle := s.nextHandle + 1))
    ensures forall w :: HasEngine(s.(nextHandle := s.nextHandle + 1), w) <==> HasEngine(s, w)
  {
    var s' := s.(nextHandle := s.nextHandle + 1);
    forall w
      ensures HasEngine(s', w) <==> HasEngine(s, w)
      ensures RunningInv(s', w)
    {
      assert RunningInv(s, w);
      assert HasResponsible(s, w) ==> HasResponsible(s', w);
    }
  }

  /** A claim only ever starts on a row without any committed progress, and once `running` or a
      final status is committed no engine passes the claim again; a workflow is executed once. */
  lemma ClaimsAreFresh(states: seq<State>, steps: seq<Step>, i: nat, j: nat, t: TaskHandle)
    requires IsRun(states, steps) && i <= j < |steps| && steps[j] == Claim(t)
    ensures var w := states[j].engines[t].workflow;
      && (At(states[j + 1], t, Claimed) ==> w !in states[j].touched)
      && (w in states[i].committed && states[i].committed[w] != Pending ==> At(states[j + 1], t, Closing))
  {
    RunKeepsInv(states, steps, j);
    var w := states[j].engines[t].workflow;
    if w in states[i].committed {
      StatusMovesForward(states, steps, i, j, w);
    }
  }

  /** Recovery never overwrites a final status, and marks a workflow failed only if the crashed
      engine had committed `running`; a crash before that leaves the row pending for a later poll. */
  lemma RecoveryIsSound(s: State, t: TaskHandle, succeeds: bool)
    requires Inv(s) && Enabled(s, CommitRecovery(t, succeeds))
    ensures var w, s' := s.engines[t].workflow, Apply(s, CommitRecovery(t, succeeds));
      && (Terminal(s.committed[w]) || s.committed[w] == Pending ==> s'.committed == s.committed)
      && (s.committed[w] == Running && succeeds ==> s'.committed[w] == Failed)
      && forall v :: v in s.committed && v != w ==> s'.committed[v] == s.committed[v]
  {
    assert EngineInv(s, s.engines[t]);
  }
}
