/**
 Dependency graphs of workflow steps: walks, cycles, and the least set of steps
 closed under "all dependencies already emitted".  A graph maps a step id to the
 list of its dependencies, which may repeat an id and may name an unknown one.
 */
module StepGraph {

  type Graph = map<string, seq<string>>

  /** Every step of `g` all of whose dependencies lie in `s` lies in `s` itself. */
  ghost predicate Closed(g: Graph, s: set<string>) {
    forall n {:trigger g[n]} :: n in g && (forall d :: d in g[n] ==> d in s) ==> n in s
  }

  ghost predicate IsLeastClosed(g: Graph, s: set<string>) {
    Closed(g, s) && forall s' :: Closed(g, s') ==> s <= s'
  }

  predicate NoRepeats(order: seq<string>) {
    forall i, j :: 0 <= i < j < |order| ==> order[i] != order[j]
  }

  function Elements(order: seq<string>): set<string> {
    set n | n in order
  }

  /** Each entry is a step of `g` and all its dependencies come strictly earlier. */
  ghost predicate DependenciesFirst(g: Graph, order: seq<string>) {
    forall i :: 0 <= i < |order| ==>
      order[i] in g && forall d :: d in g[order[i]] ==> d in order[..i]
  }

  /** Consecutive nodes of a walk are a step and one of its dependencies. */
  ghost predicate Walk(g: Graph, p: seq<string>) {
    forall i :: 0 <= i < |p| - 1 ==> p[i] in g && p[i + 1] in g[p[i]]
  }

  ghost predicate Reaches(g: Graph, a: string, b: string) {
    exists p :: Walk(g, p) && |p| >= 2 && p[0] == a && p[|p| - 1] == b
  }

  ghost predicate Acyclic(g: Graph) {
    forall n :: !Reaches(g, n, n)
  }

  ghost predicate AllDefined(g: Graph) {
    forall n, d :: n in g && d in g[n] ==> d in g
  }

  /* ---------- sequences without repeats ---------- */

  lemma {:induction false} NoRepeatsCardinality(order: seq<string>)
    requires NoRepeats(order)
    ensures |Elements(order)| == |order|
  {
    if order != [] {
      var last := |order| - 1;
      NoRepeatsCardinality(order[..last]);
      assert order == order[..last] + [order[last]];
      assert Elements(order) == Elements(order[..last]) + {order[last]};
    }
  }

  lemma SubsetCardinality(a: set<string>, b: set<string>)
    requires a <= b
    ensures |a| <= |b|
    ensures |a| == |b| ==> a == b
  {
    assert b == a + (b - a);
    if |a| == |b| {
      assert |b - a| == 0;
    }
  }

  /** Pigeonhole: a sequence longer than the set it draws from repeats an entry. */
  lemma Pigeonhole(p: seq<string>, s: set<string>) returns (i: nat, j: nat)
    requires |p| > |s| && forall x :: x in p ==> x in s
    ensures i < j < |p| && p[i] == p[j]
  {
    if NoRepeats(p) {
      NoRepeatsCardinality(p);
      SubsetCardinality(Elements(p), s);
      assert false;
    }
    i, j :| 0 <= i < j < |p| && p[i] == p[j];
  }

  /* ---------- the emitted set ---------- */

  /** Whatever is emitted dependencies-first lies in every closed set. */
  lemma {:induction false} EmittedInClosed(g: Graph, order: seq<string>, s: set<string>)
    requires DependenciesFirst(g, order) && Closed(g, s)
    ensures Elements(order) <= s
  {
    if order != [] {
      var last := |order| - 1;
      var init := order[..last];
      forall i | 0 <= i < |init|
        ensures init[i] in g && forall d :: d in g[init[i]] ==> d in init[..i]
      {
        assert init[..i] == order[..i] && init[i] == order[i];
      }
      EmittedInClosed(g, init, s);
      assert forall d :: d in g[order[last]] ==> d in Elements(init);
      assert order[last] in s;
      assert forall x :: x in order ==> x in init || x == order[last];
    }
  }

  /** A closed set emitted dependencies-first is the least closed set. */
  lemma EmittedIsLeast(g: Graph, order: seq<string>)
    requires DependenciesFirst(g, order) && Closed(g, Elements(order))
    ensures IsLeastClosed(g, Elements(order))
  {
    forall s | Closed(g, s)
      ensures Elements(order) <= s
    {
      EmittedInClosed(g, order, s);
    }
  }

  /** All worklist orders over one graph emit the same steps, hence equally many. */
  lemma EmittedSetIsUnique(g: Graph, order1: seq<string>, order2: seq<string>)
    requires NoRepeats(order1) && DependenciesFirst(g, order1) && Closed(g, Elements(order1))
    requires NoRepeats(order2) && DependenciesFirst(g, order2) && Closed(g, Elements(order2))
    ensures Elements(order1) == Elements(order2) && |order1| == |order2|
  {
    EmittedInClosed(g, order1, Elements(order2));
    EmittedInClosed(g, order2, Elements(order1));
    NoRepeatsCardinality(order1);
    NoRepeatsCardinality(order2);
  }

  /* ---------- a stuck worklist and cycles ---------- */

  /** `next` sends every node of a region to one of its dependencies inside the region. */
  ghost predicate StaysInside(g: Graph, next: map<string, string>) {
    forall n {:trigger next[n]} :: n in next ==> n in g && next[n] in g[n] && next[n] in next
  }

  /** Following dependencies inside a stuck region gives walks of every length. */
  lemma {:induction false} StuckWalk(g: Graph, next: map<string, string>, start: string, steps: nat)
    returns (p: seq<string>)
    requires StaysInside(g, next) && start in next
    ensures Walk(g, p) && |p| == steps + 1 && p[0] == start
    ensures forall x :: x in p ==> x in next
    decreases steps
  {
    if steps == 0 {
      p := [start];
    } else {
      var q := StuckWalk(g, next, next[start], steps - 1);
      p := [start] + q;
    }
  }

  ghost function MissingDependency(g: Graph, s: set<string>, n: string): (d: string)
    requires n in g && n !in s && Closed(g, s)
    ensures d in g[n] && d !in s
  {
    assert !(forall d :: d in g[n] ==> d in s);
    var d :| d in g[n] && d !in s;
    d
  }

  lemma SubwalkReaches(g: Graph, p: seq<string>, i: nat, j: nat)
    requires Walk(g, p) && i < j < |p|
    ensures Reaches(g, p[i], p[j])
  {
    var q := p[i..j + 1];
    forall k | 0 <= k < |q| - 1
      ensures q[k] in g && q[k + 1] in g[q[k]]
    {
      assert q[k] == p[i + k] && q[k + 1] == p[i + k + 1];
    }
    assert Walk(g, q) && q[0] == p[i] && q[|q| - 1] == p[j];
  }

  /** If a closed set misses a defined step, the missed part contains a cycle. */
  lemma StuckMeansCycle(g: Graph, s: set<string>) returns (n: string)
    requires AllDefined(g) && Closed(g, s) && !(g.Keys <= s)
    ensures Reaches(g, n, n)
  {
    var next := map m | m in g.Keys - s :: MissingDependency(g, s, m);
    assert next.Keys == g.Keys - s;
    var start :| start in g.Keys && start !in s;
    assert start in next.Keys;
    assert StaysInside(g, next);
    var p := StuckWalk(g, next, start, |next.Keys|);
    var i, j := Pigeonhole(p, next.Keys);
    SubwalkReaches(g, p, i, j);
    n := p[i];
  }

  /** The position of an emitted node. */
  ghost function Position(order: seq<string>, n: string): (i: nat)
    requires n in order
    ensures i < |order| && order[i] == n
  {
    var i: nat :| i < |order| && order[i] == n;
    i
  }

  /** Along a walk inside an order, positions strictly decrease. */
  lemma {:induction false} WalkDescends(g: Graph, order: seq<string>, p: seq<string>)
    requires NoRepeats(order) && DependenciesFirst(g, order)
    requires Walk(g, p) && |p| >= 2 && p[0] in order
    ensures p[|p| - 1] in order && Position(order, p[|p| - 1]) < Position(order, p[0])
  {
    var i := Position(order, p[0]);
    assert p[1] in g[p[0]];
    assert p[1] in order[..i];
    assert Position(order, p[1]) < i;
    if |p| > 2 {
      assert Walk(g, p[1..]) by {
        forall k | 0 <= k < |p[1..]| - 1
          ensures p[1..][k] in g && p[1..][k + 1] in g[p[1..][k]]
        {
          assert p[1..][k] == p[k + 1] && p[1..][k + 1] == p[k + 2];
        }
      }
      WalkDescends(g, order, p[1..]);
    }
  }

  /** Kahn's criterion: the emitted steps are all steps exactly when no step reaches itself. */
  lemma CompleteIffAcyclic(g: Graph, order: seq<string>)
    requires AllDefined(g)
    requires NoRepeats(order) && DependenciesFirst(g, order) && Closed(g, Elements(order))
    ensures Elements(order) == g.Keys <==> Acyclic(g)
    ensures |order| == |g.Keys| <==> Acyclic(g)
  {
    assert Elements(order) <= g.Keys;
    NoRepeatsCardinality(order);
    SubsetCardinality(Elements(order), g.Keys);
    if Elements(order) == g.Keys {
      forall n
        ensures !Reaches(g, n, n)
      {
        if Reaches(g, n, n) {
          var p :| Walk(g, p) && |p| >= 2 && p[0] == n && p[|p| - 1] == n;
          assert p[0] in g && n in Elements(order);
          WalkDescends(g, order, p);
        }
      }
    } else {
      var n := StuckMeansCycle(g, Elements(order));
    }
  }
}
