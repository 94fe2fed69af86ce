/**
 Workflow definitions and the two worklist (Kahn) passes over them: validation and
 the execution order.  A dependency list may repeat an id, so both passes count
 edges with multiplicity.
 */
module WorkflowDag {
  import opened Wrappers
  import opened StepGraph

  /** A step definition; a missing id is the empty string, missing dependencies the empty list. */
  datatype StepDef = StepDef(id: string, dependsOn: seq<string>)

  datatype DagError =
    | MissingId
    | DuplicateId(id: string)
    | UndefinedDependency(id: string, dependency: string)
    | HasCycle

  type Adjacency = map<string, seq<string>>

  predicate DistinctIds(tasks: seq<StepDef>) {
    forall i, j :: 0 <= i < j < |tasks| ==> tasks[i].id != tasks[j].id
  }

  predicate IdsPresent(tasks: seq<StepDef>) {
    forall i :: 0 <= i < |tasks| ==> tasks[i].id != ""
  }

  function Ids(tasks: seq<StepDef>): set<string> {
    set t | t in tasks :: t.id
  }

  /** The definition as a graph; on duplicate ids the last definition counts. */
  function GraphOf(tasks: seq<StepDef>): Graph {
    if tasks == [] then map[]
    else
      var last := tasks[|tasks| - 1];
      GraphOf(tasks[..|tasks| - 1])[last.id := last.dependsOn]
  }

  /** What a valid definition is: ids present and distinct, dependencies defined, no cycle. */
  ghost predicate ValidDefinition(tasks: seq<StepDef>) {
    && IdsPresent(tasks)
    && DistinctIds(tasks)
    && AllDefined(GraphOf(tasks))
    && Acyclic(GraphOf(tasks))
  }

  lemma {:induction false} GraphOfDomain(tasks: seq<StepDef>)
    ensures GraphOf(tasks).Keys == Ids(tasks)
  {
    if tasks != [] {
      var init, last := tasks[..|tasks| - 1], tasks[|tasks| - 1];
      GraphOfDomain(init);
      assert tasks == init + [last];
      assert forall t :: t in tasks <==> t in init || t == last;
      assert Ids(tasks) == Ids(init) + {last.id};
    }
  }

  lemma {:induction false} GraphOfLookup(tasks: seq<StepDef>, i: nat)
    requires DistinctIds(tasks) && i < |tasks|
    ensures tasks[i].id in GraphOf(tasks) && GraphOf(tasks)[tasks[i].id] == tasks[i].dependsOn
  {
    if i < |tasks| - 1 {
      GraphOfLookup(tasks[..|tasks| - 1], i);
    }
  }

  /* ---------- edge counting ---------- */

  function Children(adjacency: Adjacency, d: string): seq<string> {
    if d in adjacency then adjacency[d] else []
  }

  /** How many entries of `deps`, with multiplicity, are not in `done`. */
  function Pending(deps: seq<string>, done: set<string>): nat {
    if deps == [] then 0
    else (if deps[0] in done then 0 else 1) + Pending(deps[1..], done)
  }

  lemma {:induction false} PendingZero(deps: seq<string>, done: set<string>)
    ensures Pending(deps, done) == 0 <==> forall d :: d in deps ==> d in done
  {
    if deps != [] {
      PendingZero(deps[1..], done);
      assert forall d :: d in deps <==> d == deps[0] || d in deps[1..];
    }
  }

  lemma {:induction false} PendingNone(deps: seq<string>)
    ensures Pending(deps, {}) == |deps|
  {
    if deps != [] {
      PendingNone(deps[1..]);
    }
  }

  lemma {:induction false} PendingStep(deps: seq<string>, done: set<string>, n: string)
    requires n !in done
    ensures Pending(deps, done + {n}) == Pending(deps, done) - multiset(deps)[n]
  {
    if deps != [] {
      PendingStep(deps[1..], done, n);
      assert deps == [deps[0]] + deps[1..];
    }
  }

  /** `adjacency` lists each step once per occurrence of the dependency in its list. */
  ghost predicate Inverts(adjacency: Adjacency, g: Graph) {
    forall c, d :: c in g ==> multiset(Children(adjacency, d))[c] == multiset(g[c])[d]
  }

  /** The in-degree of every step is its number of dependencies not yet emitted. */
  ghost predicate CountsPending(inDegree: map<string, int>, g: Graph, done: set<string>) {
    inDegree.Keys == g.Keys && forall c :: c in g ==> inDegree[c] == Pending(g[c], done)
  }

  ghost predicate ChildrenKnown(adjacency: Adjacency, known: set<string>) {
    forall d, c :: c in Children(adjacency, d) ==> c in known
  }

  lemma CountsAfterEmit(g: Graph, adjacency: Adjacency, before: map<string, int>, after: map<string, int>,
                        done: set<string>, n: string)
    requires Inverts(adjacency, g) && CountsPending(before, g, done) && n !in done
    requires after.Keys == before.Keys
    requires forall c :: c in after ==> after[c] == before[c] - multiset(Children(adjacency, n))[c]
    ensures CountsPending(after, g, done + {n})
  {
    forall c | c in g
      ensures after[c] == Pending(g[c], done + {n})
    {
      PendingStep(g[c], done, n);
    }
  }

  /** The steps that are ready are exactly those without pending dependencies. */
  lemma ReadyIffEmitted(g: Graph, inDegree: map<string, int>, done: set<string>)
    requires CountsPending(inDegree, g, done)
    ensures forall n :: n in g ==> (inDegree[n] <= 0 <==> forall d :: d in g[n] ==> d in done)
  {
    forall n | n in g
      ensures inDegree[n] <= 0 <==> forall d :: d in g[n] ==> d in done
    {
      PendingZero(g[n], done);
    }
  }

  /* ---------- the worklist ---------- */

  /** Emitted and queued steps are distinct and are exactly those of in-degree at most zero. */
  ghost predicate WorklistInv(inDegree: map<string, int>, order: seq<string>, queue: seq<string>) {
    && NoRepeats(order + queue)
    && (forall n :: n in order + queue <==> n in inDegree && inDegree[n] <= 0)
  }

  /** The body of the worklist loop: take one step off each child per edge. */
  method Relax(node: string, children: seq<string>, inDegree0: map<string, int>, queue0: seq<string>,
               ghost order: seq<string>)
    returns (inDegree: map<string, int>, queue: seq<string>)
    requires forall c :: c in children ==> c in inDegree0
    requires WorklistInv(inDegree0, order, queue0)
    ensures WorklistInv(inDegree, order, queue)
    ensures inDegree.Keys == inDegree0.Keys
    ensures forall c :: c in inDegree ==> inDegree[c] == inDegree0[c] - multiset(children)[c]
  {
    inDegree, queue := inDegree0, queue0;
    for i := 0 to |children|
      invariant inDegree.Keys == inDegree0.Keys
      invariant forall c :: c in inDegree ==> inDegree[c] == inDegree0[c] - multiset(children[..i])[c]
      invariant WorklistInv(inDegree, order, queue)
    {
      var child := children[i];
      assert children[..i + 1] == children[..i] + [child];
      ghost var before := order + queue;
      assert child in before <==> inDegree[child] <= 0;
      inDegree := inDegree[child := inDegree[child] - 1];
      if inDegree[child] == 0 {
        queue := queue + [child];
        assert order + queue == before + [child];
      }
    }
    assert children[..|children|] == children;
  }

  /** Kahn's loop, for any queue that holds the steps of in-degree zero in any order.
      It ends because a step is enqueued at most once. */
  method Drain(adjacency: Adjacency, inDegree0: map<string, int>, queue0: seq<string>, ghost g: Graph)
    returns (order: seq<string>)
    requires ChildrenKnown(adjacency, inDegree0.Keys)
    requires forall n :: n in inDegree0 ==> inDegree0[n] >= 0
    requires NoRepeats(queue0) && forall n :: n in queue0 <==> n in inDegree0 && inDegree0[n] == 0
    ensures NoRepeats(order) && forall n :: n in order ==> n in inDegree0
    ensures Inverts(adjacency, g) && CountsPending(inDegree0, g, {}) ==>
              DependenciesFirst(g, order) && Closed(g, Elements(order))
  {
    var inDegree, queue := inDegree0, queue0;
    ghost var counting := Inverts(adjacency, g) && CountsPending(inDegree0, g, {});
    order := [];
    assert order + queue == queue && Elements(order) == {};
    while queue != []
      invariant inDegree.Keys == inDegree0.Keys
      invariant WorklistInv(inDegree, order, queue)
      invariant counting ==> CountsPending(inDegree, g, Elements(order)) && DependenciesFirst(g, order)
      decreases |inDegree.Keys| - |order|
    {
      var node := queue[0];
      PopKeepsWorklist(inDegree, order, queue);
      queue := queue[1..];
      ghost var emitted, before := order, inDegree;
      order := order + [node];
      EmittedBelow(inDegree.Keys, order);
      inDegree, queue := Relax(node, Children(adjacency, node), inDegree, queue, order);
      if counting {
        EmitReady(g, adjacency, before, inDegree, emitted, node);
      }
    }
    assert order + queue == order;
    if counting {
      ReadyIffEmitted(g, inDegree, Elements(order));
      assert Closed(g, Elements(order));
    }
  }

  lemma EmitKeepsDependenciesFirst(g: Graph, order: seq<string>, n: string)
    requires DependenciesFirst(g, order)
    requires n in g && forall d :: d in g[n] ==> d in Elements(order)
    ensures DependenciesFirst(g, order + [n])
  {
    var longer := order + [n];
    forall i | 0 <= i < |longer|
      ensures longer[i] in g && forall d :: d in g[longer[i]] ==> d in longer[..i]
    {
      assert longer[..i] == order[..i];
      assert i == |order| ==> longer[..i] == order;
    }
  }

  /** Moving the head of the queue to the end of the order. */
  lemma PopKeepsWorklist(inDegree: map<string, int>, order: seq<string>, queue: seq<string>)
    requires WorklistInv(inDegree, order, queue) && queue != []
    ensures WorklistInv(inDegree, order + [queue[0]], queue[1..])
    ensures NoRepeats(order + [queue[0]]) && queue[0] !in order
    ensures forall n :: n in order + [queue[0]] ==> n in inDegree && inDegree[n] <= 0
  {
    var order', queue' := order + [queue[0]], queue[1..];
    assert order + queue == order' + queue';
    assert forall n :: n in order' ==> n in order' + queue';
    NoRepeatsPrefix(order', queue');
    assert forall i :: 0 <= i < |order| ==> order[i] == order'[i] && order'[i] != order'[|order|];
  }

  /** Emitting a ready step keeps the counts and the order of dependencies right. */
  lemma EmitReady(g: Graph, adjacency: Adjacency, before: map<string, int>, after: map<string, int>,
                  order: seq<string>, n: string)
    requires Inverts(adjacency, g) && CountsPending(before, g, Elements(order)) && DependenciesFirst(g, order)
    requires n !in order && n in before && before[n] <= 0
    requires after.Keys == before.Keys
    requires forall c :: c in after ==> after[c] == before[c] - multiset(Children(adjacency, n))[c]
    ensures CountsPending(after, g, Elements(order + [n])) && DependenciesFirst(g, order + [n])
  {
    var done := Elements(order);
    assert DependenciesFirst(g, order + [n]) by {
      PendingZero(g[n], done);
      EmitKeepsDependenciesFirst(g, order, n);
    }
    assert Elements(order + [n]) == done + {n};
    assert CountsPending(after, g, done + {n}) by {
      CountsAfterEmit(g, adjacency, before, after, done, n);
    }
  }

  lemma NoRepeatsPrefix(a: seq<string>, b: seq<string>)
    requires NoRepeats(a + b)
    ensures NoRepeats(a)
  {
    forall i, j | 0 <= i < j < |a|
      ensures a[i] != a[j]
    {
      assert (a + b)[i] == a[i] && (a + b)[j] == a[j];
    }
  }

  lemma EmittedBelow(known: set<string>, order: seq<string>)
    requires NoRepeats(order) && forall n :: n in order ==> n in known
    ensures |order| <= |known|
  {
    NoRepeatsCardinality(order);
    SubsetCardinality(Elements(order), known);
  }

  /* ---------- execution order ---------- */

  /** A list that emits, without repeats and dependencies first, exactly the least closed set. */
  ghost predicate IsExecutionOrder(tasks: seq<StepDef>, order: seq<string>) {
    && NoRepeats(order)
    && DependenciesFirst(GraphOf(tasks), order)
    && IsLeastClosed(GraphOf(tasks), Elements(order))
  }

  /** Appends `child` to the list kept under `d`. */
  function AddEdge(adjacency: Adjacency, d: string, child: string): Adjacency {
    adjacency[d := Children(adjacency, d) + [child]]
  }

  /** How often `child` is listed under `d`. */
  ghost function EdgeCount(adjacency: Adjacency, d: string, child: string): nat {
    multiset(Children(adjacency, d))[child]
  }

  lemma AddEdgeCounts(adjacency: Adjacency, d: string, child: string)
    ensures forall d', c :: EdgeCount(AddEdge(adjacency, d, child), d', c)
                         == EdgeCount(adjacency, d', c) + (if d' == d && c == child then 1 else 0)
  {
  }

  /** Adds one edge per entry of `deps`, so a repeated entry adds a repeated edge. */
  method AddEdges(adjacency0: Adjacency, deps: seq<string>, child: string) returns (adjacency: Adjacency)
    ensures forall d, c :: EdgeCount(adjacency, d, c)
                        == EdgeCount(adjacency0, d, c) + (if c == child then multiset(deps)[d] else 0)
  {
    adjacency := adjacency0;
    for i := 0 to |deps|
      invariant forall d, c :: EdgeCount(adjacency, d, c)
                            == EdgeCount(adjacency0, d, c) + (if c == child then multiset(deps[..i])[d] else 0)
    {
      assert deps[..i + 1] == deps[..i] + [deps[i]];
      AddEdgeCounts(adjacency, deps[i], child);
      adjacency := AddEdge(adjacency, deps[i], child);
    }
    assert deps[..|deps|] == deps;
  }

  /** What adjacency holds once the definitions of `prefix` have been entered. */
  ghost predicate Entered(adjacency: Adjacency, prefix: seq<StepDef>) {
    forall d, c :: EdgeCount(adjacency, d, c) == if c in GraphOf(prefix) then multiset(GraphOf(prefix)[c])[d] else 0
  }

  lemma EnteredStep(before: Adjacency, after: Adjacency, tasks: seq<StepDef>, i: nat)
    requires i < |tasks| && Entered(before, tasks[..i]) && tasks[i].id !in GraphOf(tasks[..i])
    requires forall d, c :: EdgeCount(after, d, c)
                         == EdgeCount(before, d, c) + (if c == tasks[i].id then multiset(tasks[i].dependsOn)[d] else 0)
    ensures Entered(after, tasks[..i + 1])
  {
    GraphOfPrefix(tasks, i);
  }

  lemma GraphOfPrefix(tasks: seq<StepDef>, i: nat)
    requires i < |tasks|
    ensures GraphOf(tasks[..i + 1]) == GraphOf(tasks[..i])[tasks[i].id := tasks[i].dependsOn]
    ensures GraphOf(tasks[..i + 1]).Keys == GraphOf(tasks[..i]).Keys + {tasks[i].id}
  {
    assert tasks[..i + 1][..i] == tasks[..i];
  }

  lemma FreshId(tasks: seq<StepDef>, i: nat)
    requires i < |tasks| && forall j, k :: 0 <= j < k <= i ==> tasks[j].id != tasks[k].id
    ensures tasks[i].id !in GraphOf(tasks[..i])
  {
    GraphOfDomain(tasks[..i]);
  }

  lemma EnteredKnown(adjacency: Adjacency, tasks: seq<StepDef>)
    requires Entered(adjacency, tasks)
    ensures ChildrenKnown(adjacency, GraphOf(tasks).Keys) && Inverts(adjacency, GraphOf(tasks))
  {
    forall d, c | c in Children(adjacency, d)
      ensures c in GraphOf(tasks)
    {
      assert EdgeCount(adjacency, d, c) > 0;
    }
    forall c, d | c in GraphOf(tasks)
      ensures multiset(Children(adjacency, d))[c] == multiset(GraphOf(tasks)[c])[d]
    {
      assert EdgeCount(adjacency, d, c) == multiset(GraphOf(tasks)[c])[d];
    }
  }

  lemma CountsInitially(inDegree: map<string, int>, g: Graph)
    requires inDegree.Keys == g.Keys && forall c :: c in g ==> inDegree[c] == |g[c]|
    ensures CountsPending(inDegree, g, {})
  {
    forall c | c in g {
      PendingNone(g[c]);
    }
  }

  /** The steps of in-degree zero in the order in which their ids first appear. */
  method ReadyInOrder(tasks: seq<StepDef>, inDegree: map<string, int>) returns (queue: seq<string>)
    requires inDegree.Keys == Ids(tasks)
    ensures NoRepeats(queue) && forall n :: n in queue <==> n in inDegree && inDegree[n] == 0
  {
    queue := [];
    for i := 0 to |tasks|
      invariant NoRepeats(queue)
      invariant forall n :: n in queue <==> n in Ids(tasks[..i]) && n in inDegree && inDegree[n] == 0
    {
      var id := tasks[i].id;
      assert tasks[..i + 1] == tasks[..i] + [tasks[i]];
      assert Ids(tasks[..i + 1]) == Ids(tasks[..i]) + {id};
      assert id in Ids(tasks);
      if inDegree[id] == 0 && id !in queue {
        queue := queue + [id];
      }
    }
    assert tasks[..|tasks|] == tasks;
  }

  /** The execution order of a definition.  On distinct ids it emits, without repeats and
      dependencies first, the least set of steps closed under "all dependencies emitted". */
  method TopologicalOrder(tasks: seq<StepDef>) returns (order: seq<string>)
    ensures NoRepeats(order) && Elements(order) <= Ids(tasks)
    ensures DistinctIds(tasks) ==> IsExecutionOrder(tasks, order)
    ensures ValidDefinition(tasks) ==> Elements(order) == Ids(tasks) && |order| == |tasks|
  {
    var adjacency: Adjacency, inDegree: map<string, int> := map[], map[];
    for i := 0 to |tasks|
      invariant inDegree.Keys == GraphOf(tasks[..i]).Keys
      invariant forall c :: c in inDegree ==> inDegree[c] == |GraphOf(tasks[..i])[c]|
      invariant ChildrenKnown(adjacency, inDegree.Keys)
      invariant DistinctIds(tasks) ==> Entered(adjacency, tasks[..i])
    {
      var id, deps := tasks[i].id, tasks[i].dependsOn;
      GraphOfPrefix(tasks, i);
      inDegree := inDegree[id := |deps|];
      ghost var before := adjacency;
      adjacency := AddEdges(adjacency, deps, id);
      EdgesStayKnown(before, adjacency, inDegree.Keys, deps, id);
      if DistinctIds(tasks) {
        FreshId(tasks, i);
        EnteredStep(before, adjacency, tasks, i);
      }
    }
    assert tasks[..|tasks|] == tasks;
    ghost var g := GraphOf(tasks);
    GraphOfDomain(tasks);
    var queue := ReadyInOrder(tasks, inDegree);
    order := Drain(adjacency, inDegree, queue, g);
    if DistinctIds(tasks) {
      EnteredKnown(adjacency, tasks);
      CountsInitially(inDegree, g);
      EmittedIsLeast(g, order);
      if ValidDefinition(tasks) {
        CompleteIffAcyclic(g, order);
        DistinctCount(tasks);
        NoRepeatsCardinality(order);
      }
    }
  }

  lemma EdgesStayKnown(before: Adjacency, after: Adjacency, known: set<string>, deps: seq<string>, id: string)
    requires id in known && ChildrenKnown(before, known)
    requires forall d, c :: EdgeCount(after, d, c)
                         == EdgeCount(before, d, c) + (if c == id then multiset(deps)[d] else 0)
    ensures ChildrenKnown(after, known)
  {
    forall d, c | c in Children(after, d)
      ensures c in known
    {
      assert EdgeCount(after, d, c) > 0;
      if c != id {
        assert EdgeCount(before, d, c) > 0;
        assert c in Children(before, d);
      }
    }
  }

  lemma {:induction false} DistinctCount(tasks: seq<StepDef>)
    requires DistinctIds(tasks)
    ensures |Ids(tasks)| == |tasks|
  {
    if tasks != [] {
      var init, last := tasks[..|tasks| - 1], tasks[|tasks| - 1];
      DistinctCount(init);
      assert tasks == init + [last];
      assert Ids(tasks) == Ids(init) + {last.id};
      assert last.id !in Ids(init);
    }
  }

  /* ---------- validation ---------- */

  lemma IdsOfPrefix(tasks: seq<StepDef>, i: nat)
    requires i < |tasks|
    ensures Ids(tasks[..i + 1]) == Ids(tasks[..i]) + {tasks[i].id} == GraphOf(tasks[..i + 1]).Keys
    ensures IdsPresent(tasks[..i]) && tasks[i].id != "" ==> IdsPresent(tasks[..i + 1])
    ensures DistinctIds(tasks[..i]) && tasks[i].id !in Ids(tasks[..i]) ==> DistinctIds(tasks[..i + 1])
  {
    assert tasks[..i + 1] == tasks[..i] + [tasks[i]];
    assert Ids(tasks[..i + 1]) == Ids(tasks[..i]) + {tasks[i].id};
    GraphOfDomain(tasks[..i + 1]);
    assert forall j :: 0 <= j < i ==> tasks[..i][j] in tasks[..i] && tasks[..i][j].id in Ids(tasks[..i]);
  }

  /** First pass of validation: ids present and distinct. */
  method CollectIds(tasks: seq<StepDef>) returns (error: Option<DagError>, ids: set<string>, adjacency: Adjacency)
    ensures error.None? <==> IdsPresent(tasks) && DistinctIds(tasks)
    ensures error.None? ==> ids == Ids(tasks) && Entered(adjacency, tasks)
    ensures error == Some(MissingId) ==> !IdsPresent(tasks)
    ensures error.Some? && error.value.DuplicateId? ==>
              exists i, j :: 0 <= i < j < |tasks| && tasks[i].id == tasks[j].id == error.value.id
    ensures error.Some? ==> error.value.MissingId? || error.value.DuplicateId?
  {
    error, ids, adjacency := None, {}, map[];
    for i := 0 to |tasks|
      invariant ids == Ids(tasks[..i]) == GraphOf(tasks[..i]).Keys
      invariant IdsPresent(tasks[..i]) && DistinctIds(tasks[..i])
      invariant Entered(adjacency, tasks[..i])
    {
      var id := tasks[i].id;
      if id == "" {
        return Some(MissingId), ids, adjacency;
      }
      if id in ids {
        var j :| 0 <= j < i && tasks[j].id == id;
        return Some(DuplicateId(id)), ids, adjacency;
      }
      ids := ids + {id};
      ghost var before := adjacency;
      adjacency := AddEdges(adjacency, tasks[i].dependsOn, id);
      EnteredStep(before, adjacency, tasks, i);
      IdsOfPrefix(tasks, i);
    }
    assert tasks[..|tasks|] == tasks;
  }

  /** Second pass: every dependency names a step. */
  method FindUndefined(tasks: seq<StepDef>, ids: set<string>) returns (error: Option<DagError>)
    ensures error.None? <==> forall t, d :: t in tasks && d in t.dependsOn ==> d in ids
    ensures error.Some? ==>
              && error.value.UndefinedDependency?
              && error.value.dependency !in ids
              && exists t :: t in tasks && t.id == error.value.id && error.value.dependency in t.dependsOn
  {
    for i := 0 to |tasks|
      invariant forall t, d :: t in tasks[..i] && d in t.dependsOn ==> d in ids
    {
      var task := tasks[i];
      assert tasks[..i + 1] == tasks[..i] + [task];
      for j := 0 to |task.dependsOn|
        invariant forall d :: d in task.dependsOn[..j] ==> d in ids
      {
        var dep := task.dependsOn[j];
        assert task.dependsOn[..j + 1] == task.dependsOn[..j] + [dep];
        if dep !in ids {
          assert task in tasks;
          return Some(UndefinedDependency(task.id, dep));
        }
      }
      assert task.dependsOn[..|task.dependsOn|] == task.dependsOn;
    }
    assert tasks[..|tasks|] == tasks;
    error := None;
  }

  /** Third pass: one in-degree unit per dependency that names a step. */
  method CountInDegrees(tasks: seq<StepDef>, ids: set<string>) returns (inDegree: map<string, int>)
    requires ids == Ids(tasks) && DistinctIds(tasks)
    requires forall t, d :: t in tasks && d in t.dependsOn ==> d in ids
    ensures inDegree.Keys == ids && forall i :: 0 <= i < |tasks| ==> inDegree[tasks[i].id] == |tasks[i].dependsOn|
  {
    inDegree := map n | n in ids :: 0;
    for i := 0 to |tasks|
      invariant inDegree.Keys == ids
      invariant forall k :: 0 <= k < i ==> inDegree[tasks[k].id] == |tasks[k].dependsOn|
      invariant forall k :: i <= k < |tasks| ==> inDegree[tasks[k].id] == 0
    {
      var task := tasks[i];
      assert task in tasks && task.id in ids;
      for j := 0 to |task.dependsOn|
        invariant inDegree.Keys == ids
        invariant forall k :: 0 <= k < i ==> inDegree[tasks[k].id] == |tasks[k].dependsOn|
        invariant inDegree[task.id] == j
        invariant forall k :: i < k < |tasks| ==> inDegree[tasks[k].id] == 0
      {
        if task.dependsOn[j] in ids {
          inDegree := inDegree[task.id := inDegree[task.id] + 1];
        }
      }
    }
  }

  /** The steps of in-degree zero in an arbitrary order: the ids are kept in a set. */
  method ReadyInAnyOrder(inDegree: map<string, int>) returns (queue: seq<string>)
    ensures NoRepeats(queue) && forall n :: n in queue <==> n in inDegree && inDegree[n] == 0
  {
    queue := [];
    var rest := inDegree.Keys;
    while rest != {}
      invariant rest <= inDegree.Keys
      invariant NoRepeats(queue)
      invariant forall n :: n in queue <==> n in inDegree.Keys - rest && inDegree[n] == 0
      decreases rest
    {
      var n :| n in rest;
      rest := rest - {n};
      if inDegree[n] == 0 {
        queue := queue + [n];
      }
    }
  }

  /** The two passes agree: the steps that validation visits, whatever the order of its queue, are
      those of any execution order, and equally many. */
  lemma OrderLengthIsVisitedCount(tasks: seq<StepDef>, order: seq<string>, visited: seq<string>)
    requires IsExecutionOrder(tasks, order)
    requires NoRepeats(visited) && DependenciesFirst(GraphOf(tasks), visited)
    requires Closed(GraphOf(tasks), Elements(visited))
    ensures |order| == |visited| && Elements(order) == Elements(visited)
    ensures IsExecutionOrder(tasks, visited)
  {
    EmittedSetIsUnique(GraphOf(tasks), order, visited);
    EmittedIsLeast(GraphOf(tasks), visited);
  }

  /** Validation of a definition: no error exactly for valid definitions, and each error names a real
      defect, looked for in this order.  When the worklist is reached, it visits what any execution
      order emits, and the visited count decides. */
  method ValidateDag(tasks: seq<StepDef>) returns (error: Option<DagError>, ghost visited: seq<string>)
    ensures error.None? <==> ValidDefinition(tasks)
    ensures error == Some(MissingId) ==> !IdsPresent(tasks)
    ensures error.Some? && error.value.DuplicateId? ==>
              exists i, j :: 0 <= i < j < |tasks| && tasks[i].id == tasks[j].id == error.value.id
    ensures error.Some? && error.value.UndefinedDependency? ==>
              && IdsPresent(tasks) && DistinctIds(tasks)
              && error.value.dependency !in Ids(tasks)
              && exists t :: t in tasks && t.id == error.value.id && error.value.dependency in t.dependsOn
    ensures error == Some(HasCycle) <==>
              && IdsPresent(tasks) && DistinctIds(tasks) && AllDefined(GraphOf(tasks))
              && !Acyclic(GraphOf(tasks))
    ensures error.None? || error == Some(HasCycle) ==>
              && IsExecutionOrder(tasks, visited)
              && (error.None? <==> |visited| == |tasks|)
              && forall order :: IsExecutionOrder(tasks, order) ==>
                   |order| == |visited| && Elements(order) == Elements(visited)
  {
    visited := [];
    var ids, adjacency;
    error, ids, adjacency := CollectIds(tasks);
    if error.Some? {
      return;
    }
    ghost var g := GraphOf(tasks);
    GraphOfDomain(tasks);
    forall i | 0 <= i < |tasks|
      ensures tasks[i].id in g && g[tasks[i].id] == tasks[i].dependsOn
    {
      GraphOfLookup(tasks, i);
    }
    error := FindUndefined(tasks, ids);
    assert error.None? <==> AllDefined(g) by {
      DefinedIffAllKnown(tasks);
    }
    if error.Some? {
      return;
    }
    var inDegree := CountInDegrees(tasks, ids);
    assert CountsPending(inDegree, g, {}) by {
      CountsInitially(inDegree, g);
    }
    EnteredKnown(adjacency, tasks);
    var queue := ReadyInAnyOrder(inDegree);
    var emitted := Drain(adjacency, inDegree, queue, g);
    visited := emitted;
    CompleteIffAcyclic(g, visited);
    EmittedIsLeast(g, visited);
    DistinctCount(tasks);
    forall order | IsExecutionOrder(tasks, order)
      ensures |order| == |visited| && Elements(order) == Elements(visited)
    {
      OrderLengthIsVisitedCount(tasks, order, visited);
    }
    error := if |emitted| != |ids| then Some(HasCycle) else None;
  }

  lemma DefinedIffAllKnown(tasks: seq<StepDef>)
    requires DistinctIds(tasks)
    ensures AllDefined(GraphOf(tasks)) <==> forall t, d :: t in tasks && d in t.dependsOn ==> d in Ids(tasks)
  {
    var g := GraphOf(tasks);
    GraphOfDomain(tasks);
    forall i | 0 <= i < |tasks|
      ensures tasks[i].id in g && g[tasks[i].id] == tasks[i].dependsOn
    {
      GraphOfLookup(tasks, i);
    }
    forall n | n in g
      ensures exists t :: t in tasks && t.id == n && g[n] == t.dependsOn
    {
      var t :| t in tasks && t.id == n;
    }
  }
}
