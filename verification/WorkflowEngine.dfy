/**
 The workflow dispatch engine: steps run in dependency order with retries, a failed
 step fails everything that depends on it, and the workflow status aggregates the steps.
 What a delivery attempt does is given by a script, one attempt per step and attempt number.
 */
module WorkflowEngine {
  import opened Wrappers
  import opened StepGraph
  import opened WorkflowDag

  const MAX_RETRIES := 2

  datatype TaskStatus = TaskSuccess | TaskPartial | TaskFailed | TaskDeclined | TaskTimeout | TaskCancelled

  /** The two keys of a task result the engine looks at; an absent or falsy error is "". */
  datatype TaskResult = TaskResult(error: string, partial: Option<bool>, errorMessage: string)

  /** How one poll of a dispatched step ends. */
  datatype Poll =
    | NoHost(capability: string)
    | Ended(status: TaskStatus, result: TaskResult, taskError: string)
    | DeadlinePassed
    | OtherError(message: string)

  datatype Outcome = Outcome(error: string, partial: bool, retriesExhausted: bool)

  datatype Attempt = Returned(outcome: Outcome) | Raised(message: string)

  type Script = (string, nat) -> Attempt

  datatype StepStatus = Pending | Success | Partial | Failed

  datatype StepResult = NoResult | DependencyFailed | Ran(outcome: Outcome)

  datatype StepRow = StepRow(dependsOn: seq<string>, status: StepStatus, result: StepResult)

  datatype WorkflowStatus = WfPending | WfRunning | WfSuccess | WfPartial | WfFailed

  function StatusName(s: TaskStatus): string {
    match s
    case TaskSuccess => "success"
    case TaskPartial => "partial"
    case TaskFailed => "failed"
    case TaskDeclined => "declined"
    case TaskTimeout => "timeout"
    case TaskCancelled => "cancelled"
  }

  /** One execution of a step as the engine sees it. */
  function ExecuteStep(poll: Poll): Attempt {
    match poll
    case NoHost(capability) => Raised("No active agent found for capability " + capability)
    case DeadlinePassed => Raised("Step execution timed out")
    case OtherError(message) => Raised(message)
    case Ended(TaskSuccess, result, _) =>
      Returned(Outcome(result.error, result.partial == Some(true), false))
    case Ended(TaskPartial, result, _) =>
      Returned(Outcome(result.error, result.partial != Some(false), false))
    case Ended(status, result, taskError) =>
      Raised(if result.errorMessage != "" then result.errorMessage
             else if taskError != "" then taskError
             else "Step execution ended with status " + StatusName(status))
  }

  /** The outcome of a step whose attempts before `attempt` all raised. */
  function OutcomeFrom(script: Script, node: string, attempt: nat): (o: Outcome)
    requires attempt <= MAX_RETRIES
    decreases MAX_RETRIES - attempt
  {
    match script(node, attempt)
    case Returned(outcome) => outcome
    case Raised(message) =>
      if attempt + 1 > MAX_RETRIES then Outcome(message, false, true)
      else OutcomeFrom(script, node, attempt + 1)
  }

  function StepOutcome(script: Script, node: string): Outcome {
    OutcomeFrom(script, node, 0)
  }

  /** The status an outcome is classified as. */
  function Classify(o: Outcome): StepStatus {
    if o.error != "" then Failed else if o.partial then Partial else Success
  }

  function Verdict(script: Script, node: string): StepStatus {
    Classify(StepOutcome(script, node))
  }

  predicate Done(s: StepStatus) {
    s == Success || s == Partial
  }

  /* ---------- specification of a run ---------- */

  predicate DependencyOk(steps: map<string, StepRow>, d: string) {
    d in steps && Done(steps[d].status)
  }

  datatype Progress = Progress(steps: map<string, StepRow>, failed: seq<string>)

  /** The effect of reaching `node` in the execution order. */
  function RunStep(p: Progress, node: string, script: Script): Progress {
    if node !in p.steps || p.steps[node].status != Pending then p
    else
      var row := p.steps[node];
      if exists d :: d in row.dependsOn && !DependencyOk(p.steps, d) then
        Progress(p.steps[node := row.(status := Failed, result := DependencyFailed)], p.failed + [node])
      else
        var outcome := StepOutcome(script, node);
        Progress(p.steps[node := row.(status := Classify(outcome), result := Ran(outcome))],
                 if Classify(outcome) == Failed then p.failed + [node] else p.failed)
  }

  function RunSteps(order: seq<string>, steps: map<string, StepRow>, script: Script): Progress {
    if order == [] then Progress(steps, [])
    else RunStep(RunSteps(order[..|order| - 1], steps, script), order[|order| - 1], script)
  }

  function Aggregate(failed: nat, total: nat): WorkflowStatus {
    if failed > 0 && failed < total then WfPartial
    else if failed > 0 then WfFailed
    else WfSuccess
  }

  function CompletedEntry(failed: nat, total: nat, before: Option<nat>): Option<nat> {
    if Aggregate(failed, total) == WfFailed then before else Some(if failed > 0 then total - failed else total)
  }

  /* ---------- the engine ---------- */

  class Workflow {
    var status: WorkflowStatus
    var steps: map<string, StepRow>
    /** The `completed` entry of the stored result; a failed workflow stores none. */
    var completed: Option<nat>
    var failedSteps: seq<string>

    /** Attempts a step until one attempt returns or the retries are used up. */
    method ExecuteWithRetries(node: string, script: Script) returns (outcome: Outcome)
      ensures outcome == StepOutcome(script, node)
    {
      var attempt := 0;
      outcome := Outcome("", false, false);
      while attempt <= MAX_RETRIES
        invariant 0 <= attempt <= MAX_RETRIES + 1
        invariant attempt <= MAX_RETRIES ==> StepOutcome(script, node) == OutcomeFrom(script, node, attempt)
        invariant attempt > MAX_RETRIES ==> outcome == StepOutcome(script, node)
      {
        match script(node, attempt) {
          case Returned(o) =>
            outcome := o;
            break;
          case Raised(message) =>
            attempt := attempt + 1;
            if attempt > MAX_RETRIES {
              outcome := Outcome(message, false, true);
            }
        }
      }
    }

    /** Whether every dependency of a step is done. */
    method DependenciesOk(dependsOn: seq<string>) returns (ok: bool)
      ensures ok <==> forall d :: d in dependsOn ==> DependencyOk(steps, d)
    {
      ok := true;
      for i := 0 to |dependsOn|
        invariant ok <==> forall d :: d in dependsOn[..i] ==> DependencyOk(steps, d)
      {
        assert dependsOn[..i + 1] == dependsOn[..i] + [dependsOn[i]];
        if !DependencyOk(steps, dependsOn[i]) {
          ok := false;
          assert dependsOn[i] in dependsOn;
          break;
        }
      }
      assert ok ==> dependsOn[..|dependsOn|] == dependsOn;
    }

    /** One engine run over the definition `tasks`.  Only a pending workflow is run. */
    method RunWorkflow(tasks: seq<StepDef>, script: Script) returns (order: seq<string>)
      modifies this
      ensures old(status) != WfPending ==> unchanged(this) && order == []
      ensures old(status) == WfPending ==>
                && NoRepeats(order)
                && (DistinctIds(tasks) ==> DependenciesFirst(GraphOf(tasks), order))
                && (ValidDefinition(tasks) ==> Elements(order) == Ids(tasks) && |order| == |tasks|)
                && Progress(steps, failedSteps) == RunSteps(order, old(steps), script)
                && completed == CompletedEntry(|failedSteps|, |order|, old(completed))
                && status == Aggregate(|failedSteps|, |order|)
      ensures old(status) == WfPending && ValidDefinition(tasks) && old(steps) == InitialRows(tasks) ==>
                steps == FinalRows(GraphOf(tasks), script)
    {
      order := [];
      if status != WfPending {
        return;
      }
      status := WfRunning;
      order := TopologicalOrder(tasks);
      ghost var steps0 := steps;
      failedSteps := [];
      for i := 0 to |order|
        invariant completed == old(completed)
        invariant Progress(steps, failedSteps) == RunSteps(order[..i], steps0, script)
      {
        var node := order[i];
        assert order[..i + 1][..i] == order[..i];
        if node !in steps || steps[node].status in {Success, Partial, Failed} {
          continue;
        }
        var row := steps[node];
        var depsOk := DependenciesOk(row.dependsOn);
        if !depsOk {
          steps := steps[node := row.(status := Failed, result := DependencyFailed)];
          failedSteps := failedSteps + [node];
          continue;
        }
        var outcome := ExecuteWithRetries(node, script);
        if outcome.error != "" {
          steps := steps[node := row.(status := Failed, result := Ran(outcome))];
          failedSteps := failedSteps + [node];
        } else if outcome.partial {
          steps := steps[node := row.(status := Partial, result := Ran(outcome))];
        } else {
          steps := steps[node := row.(status := Success, result := Ran(outcome))];
        }
      }
      assert order[..|order|] == order;
      if ValidDefinition(tasks) && steps0 == InitialRows(tasks) {
        RunEndsInFinalRows(tasks, order, script);
      }
      if failedSteps != [] && |failedSteps| < |order| {
        status := WfPartial;
        completed := Some(|order| - |failedSteps|);
      } else if failedSteps != [] {
        status := WfFailed;
      } else {
        status := WfSuccess;
        completed := Some(|order|);
      }
    }
  }

  /* ---------- what a run means ---------- */

  /** The rows created with a workflow: one pending row per step definition. */
  function InitialRows(tasks: seq<StepDef>): map<string, StepRow> {
    var g := GraphOf(tasks);
    map n | n in g :: StepRow(g[n], Pending, NoResult)
  }

  /** Some step that `n` transitively depends on has a failed verdict. */
  ghost predicate AncestorFailed(g: Graph, script: Script, n: string) {
    exists a :: Reaches(g, n, a) && Verdict(script, a) == Failed
  }

  /** The final row of a step, by verdicts and the graph alone: no execution order in sight. */
  ghost function FinalRow(g: Graph, script: Script, n: string): StepRow
    requires n in g
  {
    if AncestorFailed(g, script, n) then StepRow(g[n], Failed, DependencyFailed)
    else StepRow(g[n], Verdict(script, n), Ran(StepOutcome(script, n)))
  }

  ghost function FinalRows(g: Graph, script: Script): map<string, StepRow> {
    map n | n in g :: FinalRow(g, script, n)
  }

  lemma ReachesByFirstStep(g: Graph, n: string, a: string)
    ensures Reaches(g, n, a) <==> n in g && exists d :: d in g[n] && (d == a || Reaches(g, d, a))
  {
    if Reaches(g, n, a) {
      var p :| Walk(g, p) && |p| >= 2 && p[0] == n && p[|p| - 1] == a;
      assert p[1] in g[n];
      if |p| > 2 {
        SubwalkReaches(g, p, 1, |p| - 1);
      }
    }
    if n in g && exists d :: d in g[n] && (d == a || Reaches(g, d, a)) {
      var d :| d in g[n] && (d == a || Reaches(g, d, a));
      if d == a {
        assert Walk(g, [n, a]);
      } else {
        var p :| Walk(g, p) && |p| >= 2 && p[0] == d && p[|p| - 1] == a;
        assert Walk(g, [n] + p);
      }
    }
  }

  lemma AncestorFailedByDependency(g: Graph, script: Script, n: string)
    requires n in g && AllDefined(g)
    ensures AncestorFailed(g, script, n) <==> exists d :: d in g[n] && !Done(FinalRow(g, script, d).status)
  {
    if AncestorFailed(g, script, n) {
      var a :| Reaches(g, n, a) && Verdict(script, a) == Failed;
      ReachesByFirstStep(g, n, a);
      var d :| d in g[n] && (d == a || Reaches(g, d, a));
      assert !Done(FinalRow(g, script, d).status);
    }
    if d :| d in g[n] && !Done(FinalRow(g, script, d).status) {
      if Verdict(script, d) == Failed {
        ReachesByFirstStep(g, n, d);
      } else {
        var a :| Reaches(g, d, a) && Verdict(script, a) == Failed;
        ReachesByFirstStep(g, n, a);
      }
    }
  }

  /** Reached steps have their final row, the others are still as created. */
  ghost predicate FinalSoFar(g: Graph, order: seq<string>, script: Script, p: Progress) {
    && p.steps.Keys == g.Keys
    && (forall n :: n in g ==> p.steps[n] == if n in order then FinalRow(g, script, n)
        else StepRow(g[n], Pending, NoResult))
    && NoRepeats(p.failed)
    && (forall n :: n in p.failed <==> n in order && n in g && FinalRow(g, script, n).status == Failed)
  }

  lemma RunStepReachesFinal(g: Graph, order: seq<string>, node: string, script: Script, p: Progress)
    requires AllDefined(g) && FinalSoFar(g, order, script, p)
    requires node in g && node !in order && forall d :: d in g[node] ==> d in order
    ensures FinalSoFar(g, order + [node], script, RunStep(p, node, script))
  {
    assert p.steps[node] == StepRow(g[node], Pending, NoResult);
    assert forall d :: d in g[node] ==> p.steps[d] == FinalRow(g, script, d);
    AncestorFailedByDependency(g, script, node);
    assert AncestorFailed(g, script, node) <==> exists d :: d in g[node] && !DependencyOk(p.steps, d);
    var q := RunStep(p, node, script);
    assert q.steps[node] == FinalRow(g, script, node);
  }

  lemma {:induction false} RunStepsIsFinal(g: Graph, order: seq<string>, rows: map<string, StepRow>, script: Script)
    requires AllDefined(g) && NoRepeats(order) && DependenciesFirst(g, order)
    requires rows == map n | n in g :: StepRow(g[n], Pending, NoResult)
    ensures FinalSoFar(g, order, script, RunSteps(order, rows, script))
  {
    if order != [] {
      var last := |order| - 1;
      var init, node := order[..last], order[last];
      assert DependenciesFirst(g, init) by {
        assert forall i :: 0 <= i < |init| ==> init[i] == order[i] && init[..i] == order[..i];
      }
      RunStepsIsFinal(g, init, rows, script);
      RunStepReachesFinal(g, init, node, script, RunSteps(init, rows, script));
      assert order == init + [node];
    }
  }

  /** Every complete execution order of a fresh valid workflow ends in the final rows. */
  lemma RunEndsInFinalRows(tasks: seq<StepDef>, order: seq<string>, script: Script)
    requires ValidDefinition(tasks)
    requires NoRepeats(order) && DependenciesFirst(GraphOf(tasks), order) && Elements(order) == Ids(tasks)
    ensures RunSteps(order, InitialRows(tasks), script).steps == FinalRows(GraphOf(tasks), script)
  {
    var g := GraphOf(tasks);
    GraphOfDomain(tasks);
    assert forall n :: n in g ==> n in Elements(order);
    RunStepsIsFinal(g, order, InitialRows(tasks), script);
  }

  /** After a completed run of a freshly created valid workflow each step is in its final row:
      done exactly when it and everything it depends on got a non-failed verdict, and marked
      dependency_failed exactly when some ancestor failed. */
  lemma CompletedRun(tasks: seq<StepDef>, order: seq<string>, script: Script, n: string)
    requires ValidDefinition(tasks) && n in GraphOf(tasks)
    requires NoRepeats(order) && DependenciesFirst(GraphOf(tasks), order) && Elements(order) == Ids(tasks)
    ensures var g, row := GraphOf(tasks), RunSteps(order, InitialRows(tasks), script).steps;
      && row.Keys == Ids(tasks) == g.Keys
      && (Done(row[n].status)
          <==> Verdict(script, n) != Failed && forall a :: Reaches(g, n, a) ==> Verdict(script, a) != Failed)
      && (row[n].result == DependencyFailed <==> exists a :: a in row && Reaches(g, n, a) && row[a].status == Failed)
      && (Done(row[n].status) ==> row[n].status == Verdict(script, n) && row[n].result == Ran(StepOutcome(script, n)))
      && row[n].status != Pending
  {
    var g := GraphOf(tasks);
    GraphOfDomain(tasks);
    RunEndsInFinalRows(tasks, order, script);
    FailedAncestorRow(g, script, n);
  }

  /** Some ancestor got a failed verdict exactly when some ancestor ends failed. */
  lemma FailedAncestorRow(g: Graph, script: Script, n: string)
    requires AllDefined(g)
    ensures AncestorFailed(g, script, n)
       <==> exists a :: a in g && Reaches(g, n, a) && FinalRow(g, script, a).status == Failed
  {
    if AncestorFailed(g, script, n) {
      var a :| Reaches(g, n, a) && Verdict(script, a) == Failed;
      ReachesDefined(g, n, a);
    }
    if a :| a in g && Reaches(g, n, a) && FinalRow(g, script, a).status == Failed {
      if Verdict(script, a) != Failed {
        var b :| Reaches(g, a, b) && Verdict(script, b) == Failed;
        ReachesTransitive(g, n, a, b);
      }
    }
  }

  lemma ReachesDefined(g: Graph, a: string, b: string)
    requires AllDefined(g) && Reaches(g, a, b)
    ensures a in g && b in g
  {
    var p :| Walk(g, p) && |p| >= 2 && p[0] == a && p[|p| - 1] == b;
    assert p[|p| - 2] in g && p[|p| - 2 + 1] in g[p[|p| - 2]];
  }

  lemma ReachesTransitive(g: Graph, a: string, b: string, c: string)
    requires Reaches(g, a, b) && Reaches(g, b, c)
    ensures Reaches(g, a, c)
  {
    var p :| Walk(g, p) && |p| >= 2 && p[0] == a && p[|p| - 1] == b;
    var q :| Walk(g, q) && |q| >= 2 && q[0] == b && q[|q| - 1] == c;
    assert Walk(g, p + q[1..]);
  }

  /** Confluence: every execution order of a valid workflow ends in the same rows. */
  lemma OrderDoesNotMatter(tasks: seq<StepDef>, order1: seq<string>, order2: seq<string>, script: Script)
    requires ValidDefinition(tasks)
    requires NoRepeats(order1) && DependenciesFirst(GraphOf(tasks), order1) && Elements(order1) == Ids(tasks)
    requires NoRepeats(order2) && DependenciesFirst(GraphOf(tasks), order2) && Elements(order2) == Ids(tasks)
    ensures RunSteps(order1, InitialRows(tasks), script).steps == RunSteps(order2, InitialRows(tasks), script).steps
  {
    RunEndsInFinalRows(tasks, order1, script);
    RunEndsInFinalRows(tasks, order2, script);
  }

  lemma CountFailed(order: seq<string>, failed: seq<string>)
    requires NoRepeats(order) && NoRepeats(failed) && Elements(failed) <= Elements(order)
    ensures |failed| <= |order|
    ensures |order| - |failed| == |Elements(order) - Elements(failed)|
    ensures |failed| == |order| <==> Elements(failed) == Elements(order)
  {
    NoRepeatsCardinality(order);
    NoRepeatsCardinality(failed);
    SubsetCardinality(Elements(failed), Elements(order));
  }

  lemma SomeFailureIffSomeVerdict(g: Graph, script: Script)
    requires AllDefined(g)
    ensures (exists n :: n in g && FinalRow(g, script, n).status == Failed)
         <==> (exists n :: n in g && Verdict(script, n) == Failed)
  {
    if n :| n in g && FinalRow(g, script, n).status == Failed && Verdict(script, n) != Failed {
      var a :| Reaches(g, n, a) && Verdict(script, a) == Failed;
      ReachesDefined(g, n, a);
    }
  }

  /** The aggregate counts the failed rows, if the failed list holds exactly those. */
  lemma AggregateOfRows(order: seq<string>, p: Progress)
    requires NoRepeats(order) && Elements(order) == p.steps.Keys
    requires NoRepeats(p.failed) && forall n :: n in Elements(p.failed) <==> n in p.steps && p.steps[n].status == Failed
    ensures |p.failed| <= |order|
    ensures Aggregate(|p.failed|, |order|) == WfSuccess <==> forall n :: n in p.steps ==> p.steps[n].status != Failed
    ensures Aggregate(|p.failed|, |order|) == WfFailed
       <==> p.steps.Keys != {} && forall n :: n in p.steps ==> p.steps[n].status == Failed
    ensures |order| - |p.failed| == |set n | n in p.steps && p.steps[n].status != Failed|
  {
    CountFailed(order, p.failed);
    assert (set n | n in p.steps && p.steps[n].status != Failed) == Elements(order) - Elements(p.failed);
    assert p.failed != [] ==> p.failed[0] in Elements(p.failed);
    assert order != [] ==> order[0] in Elements(order);
  }

  /** The aggregated status: success exactly when no verdict is failed, failed exactly when there
      are steps and all of them end failed; otherwise partial, with the number of steps done. */
  lemma AggregateMeaning(tasks: seq<StepDef>, order: seq<string>, script: Script)
    requires ValidDefinition(tasks)
    requires NoRepeats(order) && DependenciesFirst(GraphOf(tasks), order) && Elements(order) == Ids(tasks)
    ensures var p := RunSteps(order, InitialRows(tasks), script);
      && p.steps.Keys == Ids(tasks) && |p.failed| <= |order|
      && (Aggregate(|p.failed|, |order|) == WfSuccess <==> forall n :: n in Ids(tasks) ==> Verdict(script, n) != Failed)
      && (Aggregate(|p.failed|, |order|) == WfFailed
          <==> Ids(tasks) != {} && forall n :: n in Ids(tasks) ==> p.steps[n].status == Failed)
      && |order| - |p.failed| == |set n | n in Ids(tasks) && p.steps[n].status != Failed|
  {
    var g, p := GraphOf(tasks), RunSteps(order, InitialRows(tasks), script);
    GraphOfDomain(tasks);
    RunStepsIsFinal(g, order, InitialRows(tasks), script);
    FailedElements(g, order, script, p);
    SomeFailureIffSomeVerdict(g, script);
    AggregateOfRows(order, p);
    assert (set n | n in Ids(tasks) && p.steps[n].status != Failed)
        == set n | n in p.steps && p.steps[n].status != Failed;
  }

  /** The stored number of completed steps: that of the steps that did not fail, unless there are steps
      and all of them failed, which stores none. */
  lemma CompletedMeaning(tasks: seq<StepDef>, order: seq<string>, script: Script, before: Option<nat>)
    requires ValidDefinition(tasks)
    requires NoRepeats(order) && DependenciesFirst(GraphOf(tasks), order) && Elements(order) == Ids(tasks)
    ensures var p := RunSteps(order, InitialRows(tasks), script);
      && p.steps.Keys == Ids(tasks) && |p.failed| <= |order|
      && CompletedEntry(|p.failed|, |order|, before)
           == if Ids(tasks) != {} && forall n :: n in Ids(tasks) ==> p.steps[n].status == Failed then before
              else Some(|set n | n in Ids(tasks) && p.steps[n].status != Failed|)
  {
    AggregateMeaning(tasks, order, script);
    var p := RunSteps(order, InitialRows(tasks), script);
    if Aggregate(|p.failed|, |order|) != WfFailed {
      assert CompletedEntry(|p.failed|, |order|, before) == Some(|order| - |p.failed|);
    }
  }

  lemma FailedElements(g: Graph, order: seq<string>, script: Script, p: Progress)
    requires FinalSoFar(g, order, script, p) && Elements(order) == g.Keys
    ensures forall n :: n in Elements(p.failed) <==> n in g && FinalRow(g, script, n).status == Failed
    ensures forall n :: n in g ==> p.steps[n] == FinalRow(g, script, n)
    ensures NoRepeats(p.failed)
  {
    assert forall n :: n in g ==> n in Elements(order);
  }

  /** A step whose row is not pending when the run starts is left as it is, and does not count as failed
      by this run. */
  lemma {:induction false} StartedRowsStay(order: seq<string>, steps: map<string, StepRow>, script: Script, n: string)
    requires n in steps && steps[n].status != Pending
    ensures var p := RunSteps(order, steps, script);
      n in p.steps && p.steps[n] == steps[n] && n !in p.failed
    decreases |order|
  {
    if order != [] {
      StartedRowsStay(order[..|order| - 1], steps, script, n);
    }
  }

  /* ---------- retries ---------- */

  /** A step whose attempts all raise is recorded as failed exactly when the last message is
      not empty: an empty message passes for success. */
  lemma ExhaustedRetries(script: Script, node: string)
    requires forall k: nat :: k <= MAX_RETRIES ==> script(node, k).Raised?
    ensures StepOutcome(script, node) == Outcome(script(node, MAX_RETRIES).message, false, true)
    ensures Verdict(script, node) == Failed <==> script(node, MAX_RETRIES).message != ""
    ensures script(node, MAX_RETRIES).message == "" ==> Verdict(script, node) == Success
  {
    assert script(node, 0).Raised? && script(node, 1).Raised? && script(node, 2).Raised?;
    assert OutcomeFrom(script, node, 2) == OutcomeFrom(script, node, 1) == OutcomeFrom(script, node, 0);
  }

  /** A step whose executions all raise an error without text. */
  function TextlessErrors(): Script {
    (_, _) => ExecuteStep(OtherError(""))
  }

  /** The concrete failing input: such a step ends as a success. */
  lemma EmptyMessagePassesForSuccess()
    ensures Verdict(TextlessErrors(), "step") == Success && StepOutcome(TextlessErrors(), "step").retriesExhausted
  {
    ExhaustedRetries(TextlessErrors(), "step");
  }

  /** A returned attempt stops the retries: its outcome is the step's outcome. */
  lemma FirstReturnCounts(script: Script, node: string, k: nat)
    requires k <= MAX_RETRIES && script(node, k).Returned?
    requires forall j: nat :: j < k ==> script(node, j).Raised?
    ensures StepOutcome(script, node) == script(node, k).outcome
  {
    assert k > 0 ==> script(node, 0).Raised?;
    assert k > 1 ==> script(node, 1).Raised?;
    assert OutcomeFrom(script, node, k) == script(node, k).outcome;
    assert k > 1 ==> OutcomeFrom(script, node, 1) == OutcomeFrom(script, node, 2);
  }

  /** A step whose dispatched task ended or timed out never raises without a message, so it is
      misread as success only if some other error without text is raised. */
  lemma PolledStepsRaiseWithText(poll: Poll)
    requires !poll.OtherError?
    ensures ExecuteStep(poll).Raised? ==> ExecuteStep(poll).message != ""
    ensures ExecuteStep(poll).Returned? <==> Delivers(poll)
    ensures poll.Ended? && poll.status == TaskSuccess && poll.result.error == "" ==>
              Classify(ExecuteStep(poll).outcome) == if poll.result.partial == Some(true) then Partial else Success
  {
  }

  /** A task that ended with a result: only successful and partial tasks have one. */
  predicate Delivers(poll: Poll) {
    poll.Ended? && poll.status in {TaskSuccess, TaskPartial}
  }

  /** Whether a delivered result without an error is a partial one: it says so itself, or the task was
      partial and the result does not deny it. */
  predicate IsPartial(poll: Poll)
    requires Delivers(poll)
  {
    poll.result.partial == Some(true) || (poll.status == TaskPartial && poll.result.partial.None?)
  }

  /** The step status of a delivered result. */
  lemma DeliveredStatus(poll: Poll)
    requires Delivers(poll)
    ensures ExecuteStep(poll).Returned?
    ensures var status := Classify(ExecuteStep(poll).outcome);
      && (status == Failed <==> poll.result.error != "")
      && (status == Partial <==> poll.result.error == "" && IsPartial(poll))
      && (status == Success <==> poll.result.error == "" && !IsPartial(poll))
    ensures ExecuteStep(poll).outcome.error == poll.result.error && !ExecuteStep(poll).outcome.retriesExhausted
  {
    match poll.result.partial {
      case None =>
      case Some(said) => assert poll.result.partial == Some(true) || poll.result.partial == Some(false);
    }
  }

  /** The text of an ending without a result: that of the result, else that of the task, else one that
      names the status; no two statuses get the same name. */
  lemma RaisedText(poll: Poll)
    requires poll.Ended? && !Delivers(poll)
    ensures ExecuteStep(poll).Raised?
    ensures poll.result.errorMessage != "" ==> ExecuteStep(poll).message == poll.result.errorMessage
    ensures poll.result.errorMessage == "" && poll.taskError != "" ==> ExecuteStep(poll).message == poll.taskError
    ensures poll.result.errorMessage == poll.taskError == "" ==>
              ExecuteStep(poll).message == "Step execution ended with status " +
                (match poll.status case TaskFailed => "failed" case TaskDeclined => "declined"
                                   case TaskTimeout => "timeout" case _ => "cancelled")
  {
  }

  /** The first of the attempts that delivers. */
  ghost predicate FirstDelivered(polls: (string, nat) -> Poll, node: string, k: nat) {
    k <= MAX_RETRIES && Delivers(polls(node, k)) && forall j: nat :: j < k ==> !Delivers(polls(node, j))
  }

  /** The verdict of a step that polls a task per attempt, up to three of them and without any other
      error: the first delivered result decides, by its error and by what it says of being partial;
      if none of the three attempts delivers, the step is failed. */
  lemma PolledVerdict(polls: (string, nat) -> Poll, node: string)
    requires forall k: nat :: k <= 2 ==> !polls(node, k).OtherError?
    ensures var verdict := Verdict((n: string, k: nat) => ExecuteStep(polls(n, k)), node);
      && (forall k: nat :: FirstDelivered(polls, node, k) ==>
            && (verdict == Failed <==> polls(node, k).result.error != "")
            && (verdict == Partial <==> polls(node, k).result.error == "" && IsPartial(polls(node, k))))
      && ((forall k: nat :: k <= 2 ==> !Delivers(polls(node, k))) ==> verdict == Failed)
  {
    var script: Script := (n: string, k: nat) => ExecuteStep(polls(n, k));
    forall k: nat | k <= 2
      ensures script(node, k).Returned? <==> Delivers(polls(node, k))
      ensures script(node, k).Raised? ==> script(node, k).message != ""
    {
      PolledStepsRaiseWithText(polls(node, k));
    }
    forall k: nat | FirstDelivered(polls, node, k)
      ensures Verdict(script, node) == Classify(ExecuteStep(polls(node, k)).outcome)
      ensures Verdict(script, node) == Failed <==> polls(node, k).result.error != ""
      ensures Verdict(script, node) == Partial <==> polls(node, k).result.error == "" && IsPartial(polls(node, k))
    {
      FirstReturnCounts(script, node, k);
      DeliveredStatus(polls(node, k));
    }
    if forall k: nat :: k <= 2 ==> !Delivers(polls(node, k)) {
      ExhaustedRetries(script, node);
    }
  }
}
