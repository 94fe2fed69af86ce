/**
 Trust scores: a registry of weighted components, the weighted mean over the components that
 can be computed, and the records and disputes the scores are recomputed from.  Numbers are
 real numbers; rounding is to the nearest, with ties to the even neighbour.
 */
module TrustScore {
  import opened Wrappers

  type AgentId = nat
  type DisputeId = nat

  /* ---------- rounding ---------- */

  function RoundInt(x: real): int {
    var low := x.Floor;
    var rest := x - low as real;
    if rest < 0.5 || (rest == 0.5 && low % 2 == 0) then low else low + 1
  }

  function Round3(x: real): real {
    RoundInt(x * 1000.0) as real / 1000.0
  }

  function Round6(x: real): real {
    RoundInt(x * 1000000.0) as real / 1000000.0
  }

  lemma RoundIntMonotone(x: real, y: real)
    requires x <= y
    ensures RoundInt(x) <= RoundInt(y)
  {
    assert x.Floor <= y.Floor;
  }

  lemma Round3Monotone(x: real, y: real)
    requires x <= y
    ensures Round3(x) <= Round3(y)
  {
    RoundIntMonotone(x * 1000.0, y * 1000.0);
  }

  /** Thousandths are kept. */
  lemma Round3Exact(n: int)
    ensures Round3(n as real / 1000.0) == n as real / 1000.0
  {
    assert n as real / 1000.0 * 1000.0 == n as real;
    assert (n as real).Floor == n;
  }

  lemma Round3Near(x: real)
    ensures x - 0.0005 <= Round3(x) <= x + 0.0005
  {
  }

  function Min(a: real, b: real): real {
    if a <= b then a else b
  }

  function Max(a: real, b: real): real {
    if a >= b then a else b
  }

  function Clamp(x: real): real {
    Min(Max(x, 0.0), 1.0)
  }

  /** Rounding goes to a nearest integer, and from the middle to the even one. */
  lemma RoundIntMeaning(x: real)
    ensures var n := RoundInt(x);
      && x - 0.5 <= n as real <= x + 0.5
      && (x - n as real == 0.5 || n as real - x == 0.5 ==> n % 2 == 0)
  {
    var low := x.Floor;
    assert low as real <= x < low as real + 1.0;
  }

  /** Clamping gives the nearest number from 0 to 1. */
  lemma ClampMeaning(x: real)
    ensures 0.0 <= Clamp(x) <= 1.0
    ensures 0.0 <= x <= 1.0 ==> Clamp(x) == x
    ensures x < 0.0 ==> Clamp(x) == 0.0
    ensures x > 1.0 ==> Clamp(x) == 1.0
  {
  }

  /* ---------- records and components ---------- */

  datatype Record = Record(
    trustScore: real,
    outcomeRate: real,
    ageFactor: real,
    disputePenalty: real,
    latency: Option<real>,
    componentScores: map<string, real>,
    totalTasks: nat,
    successfulTasks: nat,
    disputeCount: nat)

  const NEW_RECORD := Record(0.5, 0.5, 0.1, 0.0, None, map[], 0, 0, 0)

  /** A component computes a value from a record, or fails. */
  datatype Component = Component(name: string, weight: real, compute: Record -> Option<real>)

  predicate PositiveWeights(components: seq<Component>) {
    forall i :: 0 <= i < |components| ==> components[i].weight > 0.0
  }

  ghost predicate DistinctNames(components: seq<Component>) {
    forall i, j :: 0 <= i < j < |components| ==> components[i].name != components[j].name
  }

  /** A new name goes to the end, a known one is replaced where it stands. */
  function Registered(components: seq<Component>, c: Component): seq<Component> {
    if components == [] then [c]
    else if components[0].name == c.name then [c] + components[1..]
    else [components[0]] + Registered(components[1..], c)
  }

  lemma {:induction false} RegisteredMembers(components: seq<Component>, c: Component)
    requires DistinctNames(components)
    ensures forall x :: x in Registered(components, c) <==> x == c || (x in components && x.name != c.name)
  {
    if components != [] {
      var first, rest := components[0], components[1..];
      assert forall x :: x in components <==> x == first || x in rest;
      assert forall x :: x in rest ==> x.name != first.name;
      RegisteredMembers(rest, c);
      if first.name == c.name {
        assert forall x :: x in Registered(components, c) <==> x == c || x in rest;
      } else {
        assert forall x :: x in Registered(components, c) <==> x == first || x in Registered(rest, c);
      }
    }
  }

  lemma {:induction false} RegisteredNames(components: seq<Component>, c: Component)
    requires DistinctNames(components)
    ensures DistinctNames(Registered(components, c))
  {
    if components != [] && components[0].name != c.name {
      var first, rest := components[0], components[1..];
      RegisteredNames(rest, c);
      RegisteredMembers(rest, c);
      forall j | 0 <= j < |Registered(rest, c)|
        ensures first.name != Registered(rest, c)[j].name
      {
        assert Registered(rest, c)[j] in Registered(rest, c);
      }
    }
  }

  lemma {:induction false} RegisteredLength(components: seq<Component>, c: Component)
    ensures |Registered(components, c)|
         == |components| + if exists x :: x in components && x.name == c.name then 0 else 1
  {
    if components != [] {
      var first, rest := components[0], components[1..];
      assert forall x :: x in components <==> x == first || x in rest;
      RegisteredLength(rest, c);
    }
  }

  /** A component is added, or takes the place of the one with its name; names stay distinct. */
  lemma RegisteredMeaning(components: seq<Component>, c: Component)
    requires DistinctNames(components)
    ensures DistinctNames(Registered(components, c))
    ensures forall x :: x in Registered(components, c) <==> x == c || (x in components && x.name != c.name)
    ensures |Registered(components, c)|
         == |components| + if exists x :: x in components && x.name == c.name then 0 else 1
  {
    RegisteredMembers(components, c);
    RegisteredNames(components, c);
    RegisteredLength(components, c);
  }

  class Registry {
    var components: seq<Component>

    ghost predicate Valid()
      reads this
    {
      PositiveWeights(components) && DistinctNames(components)
    }

    constructor ()
      ensures Valid() && components == []
    {
      components := [];
    }

    method Register(name: string, weight: real, compute: Record -> Option<real>) returns (ok: bool)
      requires Valid()
      modifies this
      ensures Valid()
      ensures ok <==> name != "" && weight > 0.0
      ensures components == if ok then Registered(old(components), Component(name, weight, compute))
           else old(components)
    {
      if name == "" || weight <= 0.0 {
        return false;
      }
      var c := Component(name, weight, compute);
      var i := 0;
      while i < |components| && components[i].name != name
        invariant 0 <= i <= |components|
        invariant forall j :: 0 <= j < i ==> components[j].name != name
      {
        i := i + 1;
      }
      RegisteredAt(components, c, i);
      components := if i < |components| then components[i := c] else components + [c];
      ok := true;
    }
  }

  /** Where a component goes: in place of the first one of its name, else to the end. */
  lemma {:induction false} RegisteredAt(components: seq<Component>, c: Component, i: nat)
    requires i <= |components| && forall j :: 0 <= j < i ==> components[j].name != c.name
    requires i < |components| ==> components[i].name == c.name
    ensures Registered(components, c) == if i < |components| then components[i := c] else components + [c]
  {
    if i > 0 {
      RegisteredAt(components[1..], c, i - 1);
    }
  }

  /** The four components the platform installs, with configured weights. */
  function DefaultComponents(outcome: real, latency: real, dispute: real, age: real): seq<Component> {
    [
      Component("outcome_rate", outcome, (r: Record) => Some(r.outcomeRate)),
      Component("latency_adherence", latency, (r: Record) => Some(LatencyValue(r))),
      Component("dispute_health", dispute, (r: Record) => Some(1.0 - r.disputePenalty)),
      Component("age_factor", age, (r: Record) => Some(r.ageFactor))
    ]
  }

  function LatencyValue(r: Record): real {
    if r.latency.Some? then r.latency.value
    else if "latency_adherence" in r.componentScores then r.componentScores["latency_adherence"]
    else 0.5
  }

  /* ---------- the score ---------- */

  /** A component that was computed: its weight and clamped value. */
  datatype Weighted = Weighted(weight: real, value: real)

  function Surviving(components: seq<Component>, r: Record): seq<Weighted> {
    if components == [] then []
    else
      var last := components[|components| - 1];
      var rest := Surviving(components[..|components| - 1], r);
      match last.compute(r)
      case None => rest
      case Some(v) => rest + [Weighted(last.weight, Clamp(v))]
  }

  function WeightedSum(ws: seq<Weighted>): real {
    if ws == [] then 0.0 else WeightedSum(ws[..|ws| - 1]) + ws[|ws| - 1].weight * ws[|ws| - 1].value
  }

  function WeightSum(ws: seq<Weighted>): real {
    if ws == [] then 0.0 else WeightSum(ws[..|ws| - 1]) + ws[|ws| - 1].weight
  }

  /** The rounded weighted mean, or a neutral score without any weight. */
  function Mean(weightedTotal: real, weightTotal: real): real {
    if weightTotal == 0.0 then 0.5 else Round3(Clamp(weightedTotal / weightTotal))
  }

  function Score(ws: seq<Weighted>): real {
    Mean(WeightedSum(ws), WeightSum(ws))
  }

  function Scored(components: seq<Component>, r: Record): real {
    Score(Surviving(components, r))
  }

  /** The stored component scores: rounded clamped values of the components that were computed. */
  function ScoreTable(components: seq<Component>, r: Record): map<string, real> {
    if components == [] then map[]
    else
      var last := components[|components| - 1];
      var rest := ScoreTable(components[..|components| - 1], r);
      match last.compute(r)
      case None => rest
      case Some(v) => rest[last.name := Round6(Clamp(v))]
  }

  /** The table holds each component that was computed under its name, and nothing else. */
  lemma {:induction false} ScoreTableMeaning(components: seq<Component>, r: Record)
    requires DistinctNames(components)
    ensures forall i :: 0 <= i < |components| ==>
              var v, table := components[i].compute(r), ScoreTable(components, r);
              (v.Some? <==> components[i].name in table)
                  && (v.Some? ==> table[components[i].name] == Round6(Clamp(v.value)))
    ensures forall n :: n in ScoreTable(components, r) ==> exists i :: 0 <= i < |components| && components[i].name == n
  {
    if components != [] {
      var init := components[..|components| - 1];
      ScoreTableMeaning(init, r);
      assert forall i :: 0 <= i < |init| ==> init[i] == components[i];
    }
  }

  /** The record after a recomputation at an instant with the given age factor. */
  function Recomputed(components: seq<Component>, r: Record, age: real): Record {
    var aged := r.(ageFactor := age);
    aged.(trustScore := Scored(components, aged), componentScores := ScoreTable(components, aged))
  }

  /** What one more component adds. */
  lemma NextComponent(components: seq<Component>, i: nat, r: Record)
    requires i < |components|
    ensures var c, ws, table := components[i], Surviving(components[..i], r), ScoreTable(components[..i], r);
      match c.compute(r)
      case None => Surviving(components[..i + 1], r) == ws && ScoreTable(components[..i + 1], r) == table
      case Some(v) =>
        && Surviving(components[..i + 1], r) == ws + [Weighted(c.weight, Clamp(v))]
        && ScoreTable(components[..i + 1], r) == table[c.name := Round6(Clamp(v))]
  {
    assert components[..i + 1][..i] == components[..i];
  }

  lemma NextWeighted(ws: seq<Weighted>, weight: real, value: real)
    ensures WeightedSum(ws + [Weighted(weight, value)]) == WeightedSum(ws) + weight * value
    ensures WeightSum(ws + [Weighted(weight, value)]) == WeightSum(ws) + weight
  {
    assert (ws + [Weighted(weight, value)])[..|ws|] == ws;
  }

  /** The running totals of the loop. */
  datatype Totals = Totals(weighted: real, weight: real, scores: map<string, real>)

  function Added(t: Totals, c: Component, r: Record): Totals {
    match c.compute(r)
    case None => t
    case Some(v) =>
      Totals(t.weighted + c.weight * Clamp(v), t.weight + c.weight, t.scores[c.name := Round6(Clamp(v))])
  }

  function TotalsOf(components: seq<Component>, n: nat, r: Record): Totals
    requires n <= |components|
  {
    if n == 0 then Totals(0.0, 0.0, map[]) else Added(TotalsOf(components, n - 1, r), components[n - 1], r)
  }

  /** The totals of some survivors and their table. */
  function Summed(ws: seq<Weighted>, table: map<string, real>): Totals {
    Totals(WeightedSum(ws), WeightSum(ws), table)
  }

  lemma AddedSums(ws: seq<Weighted>, table: map<string, real>, c: Component, r: Record)
    ensures Added(Summed(ws, table), c, r)
         == match c.compute(r)
            case None => Summed(ws, table)
            case Some(v) => Summed(ws + [Weighted(c.weight, Clamp(v))], table[c.name := Round6(Clamp(v))])
  {
    if c.compute(r).Some? {
      NextWeighted(ws, c.weight, Clamp(c.compute(r).value));
    }
  }

  lemma AddedComponent(components: seq<Component>, i: nat, r: Record)
    requires i < |components|
    ensures Added(Summed(Surviving(components[..i], r), ScoreTable(components[..i], r)), components[i], r)
         == Summed(Surviving(components[..i + 1], r), ScoreTable(components[..i + 1], r))
  {
    NextComponent(components, i, r);
    AddedSums(Surviving(components[..i], r), ScoreTable(components[..i], r), components[i], r);
  }

  /** The totals are the sums over the surviving components and their table. */
  lemma {:induction false} TotalsMeaning(components: seq<Component>, n: nat, r: Record)
    requires n <= |components|
    ensures TotalsOf(components, n, r) == Summed(Surviving(components[..n], r), ScoreTable(components[..n], r))
  {
    if n == 0 {
      assert components[..n] == [];
    } else {
      TotalsMeaning(components, n - 1, r);
      AddedComponent(components, n - 1, r);
    }
  }

  lemma RecomputedFrom(components: seq<Component>, r: Record, age: real, t: Totals)
    requires t == TotalsOf(components, |components|, r.(ageFactor := age))
    ensures r.(ageFactor := age).(trustScore := Mean(t.weighted, t.weight), componentScores := t.scores)
         == Recomputed(components, r, age)
  {
    TotalsMeaning(components, |components|, r.(ageFactor := age));
    assert components[..|components|] == components;
  }

  method ComputeTrustScore(components: seq<Component>, r: Record, age: real) returns (after: Record)
    ensures after == Recomputed(components, r, age)
  {
    var record := r.(ageFactor := age);
    var weightedTotal, weightTotal := 0.0, 0.0;
    var scores: map<string, real> := map[];
    for i := 0 to |components|
      invariant Totals(weightedTotal, weightTotal, scores) == TotalsOf(components, i, record)
    {
      var component := components[i];
      var computed := component.compute(record);
      if computed.None? {
        continue;
      }
      var value := Clamp(computed.value);
      scores := scores[component.name := Round6(value)];
      weightedTotal := weightedTotal + component.weight * value;
      weightTotal := weightTotal + component.weight;
    }
    RecomputedFrom(components, r, age, Totals(weightedTotal, weightTotal, scores));
    after := record.(trustScore := Mean(weightedTotal, weightTotal), componentScores := scores);
  }

  /* ---------- bounds and monotonicity ---------- */

  ghost predicate Positive(ws: seq<Weighted>) {
    forall i :: 0 <= i < |ws| ==> ws[i].weight > 0.0
  }

  lemma {:induction false} SurvivingIsPositive(components: seq<Component>, r: Record)
    requires PositiveWeights(components)
    ensures Positive(Surviving(components, r))
    ensures forall i :: 0 <= i < |Surviving(components, r)| ==> 0.0 <= Surviving(components, r)[i].value <= 1.0
  {
    if components != [] {
      SurvivingIsPositive(components[..|components| - 1], r);
    }
  }

  lemma {:induction false} WeightSumPositive(ws: seq<Weighted>)
    requires Positive(ws)
    ensures WeightSum(ws) >= 0.0 && (WeightSum(ws) > 0.0 <==> ws != [])
  {
    if ws != [] {
      WeightSumPositive(ws[..|ws| - 1]);
    }
  }

  lemma MulLeft(w: real, x: real, y: real)
    requires w > 0.0 && x <= y
    ensures w * x <= w * y
  {
  }

  /** The weighted sum lies between the extreme values times the total weight. */
  lemma {:induction false} SumBounds(ws: seq<Weighted>, low: real, high: real)
    requires Positive(ws) && forall i :: 0 <= i < |ws| ==> low <= ws[i].value <= high
    ensures low * WeightSum(ws) <= WeightedSum(ws) <= high * WeightSum(ws)
  {
    if ws != [] {
      var init, last := ws[..|ws| - 1], ws[|ws| - 1];
      assert forall i :: 0 <= i < |init| ==> init[i] == ws[i];
      SumBounds(init, low, high);
      BoundStep(low, high, WeightSum(init), WeightedSum(init), last.weight, last.value);
    }
  }

  lemma BoundStep(low: real, high: real, total: real, sum: real, weight: real, value: real)
    requires weight > 0.0 && low <= value <= high && low * total <= sum <= high * total
    ensures low * (total + weight) <= sum + weight * value <= high * (total + weight)
  {
    MulLeft(weight, low, value);
    MulLeft(weight, value, high);
    assert low * (total + weight) == low * total + weight * low;
    assert high * (total + weight) == high * total + weight * high;
  }

  lemma DivideBounds(sum: real, total: real, low: real, high: real)
    requires total > 0.0 && low * total <= sum <= high * total
    ensures low <= sum / total <= high
  {
    var q := sum / total;
    assert q * total == sum;
    if q < low {
      MulLeft(total, q, low);
    }
    if q > high {
      MulLeft(total, high, q);
    }
  }

  /** The score lies between the rounded least and greatest surviving value. */
  lemma ScoreBetween(ws: seq<Weighted>, low: real, high: real)
    requires Positive(ws) && ws != []
    requires 0.0 <= low && high <= 1.0 && forall i :: 0 <= i < |ws| ==> low <= ws[i].value <= high
    ensures Round3(low) <= Score(ws) <= Round3(high)
  {
    WeightSumPositive(ws);
    SumBounds(ws, low, high);
    var mean := WeightedSum(ws) / WeightSum(ws);
    DivideBounds(WeightedSum(ws), WeightSum(ws), low, high);
    Round3Monotone(low, mean);
    Round3Monotone(mean, high);
  }

  function Least(ws: seq<Weighted>): (m: real)
    requires ws != []
    ensures forall i :: 0 <= i < |ws| ==> m <= ws[i].value
    ensures exists i :: 0 <= i < |ws| && m == ws[i].value
  {
    var last := |ws| - 1;
    if last == 0 then ws[0].value else Min(Least(ws[..last]), ws[last].value)
  }

  function Greatest(ws: seq<Weighted>): (m: real)
    requires ws != []
    ensures forall i :: 0 <= i < |ws| ==> m >= ws[i].value
    ensures exists i :: 0 <= i < |ws| && m == ws[i].value
  {
    var last := |ws| - 1;
    if last == 0 then ws[0].value else Max(Greatest(ws[..last]), ws[last].value)
  }

  /** For any list of positive-weight components, any of which may fail: the score lies between
      the rounded least and greatest clamped surviving values, and is neutral if none survives. */
  lemma ScoreBounds(components: seq<Component>, r: Record)
    requires PositiveWeights(components)
    ensures var ws := Surviving(components, r);
      && (ws == [] ==> Scored(components, r) == 0.5)
      && (ws != [] ==> Round3(Least(ws)) <= Scored(components, r) <= Round3(Greatest(ws)))
      && 0.0 <= Scored(components, r) <= 1.0
  {
    var ws := Surviving(components, r);
    SurvivingIsPositive(components, r);
    if ws != [] {
      ScoreBetween(ws, Least(ws), Greatest(ws));
      Round3Monotone(0.0, Least(ws));
      Round3Monotone(Greatest(ws), 1.0);
      Round3Exact(0);
      Round3Exact(1000);
    }
  }

  /** Same weights, no value greater. */
  ghost predicate Below(a: seq<Weighted>, b: seq<Weighted>) {
    |a| == |b| && forall i :: 0 <= i < |a| ==> a[i].weight == b[i].weight && a[i].value <= b[i].value
  }

  lemma {:induction false} SumMonotone(a: seq<Weighted>, b: seq<Weighted>)
    requires Below(a, b) && Positive(a)
    ensures WeightSum(a) == WeightSum(b) && WeightedSum(a) <= WeightedSum(b)
  {
    if a != [] {
      var last := |a| - 1;
      SumMonotone(a[..last], b[..last]);
      MulLeft(a[last].weight, a[last].value, b[last].value);
    }
  }

  lemma DivideMonotone(x: real, y: real, total: real)
    requires total > 0.0 && x <= y
    ensures x / total <= y / total
  {
    var p, q := x / total, y / total;
    assert p * total == x && q * total == y;
    if p > q {
      MulStrict(total, q, p);
    }
  }

  lemma MulStrict(w: real, x: real, y: real)
    requires w > 0.0 && x < y
    ensures x * w < y * w
  {
  }

  /** The score is monotone in every surviving value. */
  lemma ScoreMonotone(a: seq<Weighted>, b: seq<Weighted>)
    requires Below(a, b) && Positive(a)
    ensures Score(a) <= Score(b)
  {
    SumMonotone(a, b);
    WeightSumPositive(a);
    if a != [] {
      DivideMonotone(WeightedSum(a), WeightedSum(b), WeightSum(a));
      Round3Monotone(Clamp(WeightedSum(a) / WeightSum(a)), Clamp(WeightedSum(b) / WeightSum(b)));
    }
  }

  /** On `worse` each component fails as on `better` or gives no greater value. */
  ghost predicate NoBetter(components: seq<Component>, worse: Record, better: Record) {
    forall i :: 0 <= i < |components| ==>
      var x, y := components[i].compute(worse), components[i].compute(better);
      (x.None? <==> y.None?) && (x.Some? ==> x.value <= y.value)
  }

  lemma {:induction false} SurvivingBelow(components: seq<Component>, worse: Record, better: Record)
    requires NoBetter(components, worse, better)
    ensures Below(Surviving(components, worse), Surviving(components, better))
  {
    if components != [] {
      var last := |components| - 1;
      SurvivingBelow(components[..last], worse, better);
      assert components[last].compute(worse).None? <==> components[last].compute(better).None?;
    }
  }

  lemma ScoredMonotone(components: seq<Component>, worse: Record, better: Record)
    requires PositiveWeights(components) && NoBetter(components, worse, better)
    ensures Scored(components, worse) <= Scored(components, better)
  {
    SurvivingBelow(components, worse, better);
    SurvivingIsPositive(components, worse);
    ScoreMonotone(Surviving(components, worse), Surviving(components, better));
  }

  /* ---------- outcomes ---------- */

  /** One on target, decaying proportionally when slower, neutral without a target or reading. */
  function LatencyAdherence(executionMs: Option<int>, targetMs: Option<int>): real {
    if executionMs.None? || executionMs.value < 0 || targetMs.None? || targetMs.value <= 0 then 0.5
    else
      var execution := if executionMs.value >= 1 then executionMs.value else 1;
      Round3(Min(1.0, targetMs.value as real / execution as real))
  }

  lemma LatencyAdherenceRange(executionMs: Option<int>, targetMs: Option<int>)
    ensures 0.0 <= LatencyAdherence(executionMs, targetMs) <= 1.0
    ensures executionMs.Some? && targetMs.Some? && 0 <= executionMs.value <= targetMs.value && targetMs.value > 0 ==>
              LatencyAdherence(executionMs, targetMs) == 1.0
  {
    if executionMs.Some? && targetMs.Some? && executionMs.value >= 0 && targetMs.value > 0 {
      var t, e := targetMs.value as real, (if executionMs.value >= 1 then executionMs.value else 1) as real;
      var ratio := t / e;
      RatioBounds(t, e);
      Round3Exact(1000);
      Round3Exact(0);
      Round3Monotone(0.0, Min(1.0, ratio));
      Round3Monotone(Min(1.0, ratio), 1.0);
    }
  }

  /** Without a reading or a target the adherence is neutral; otherwise it is the target over the time
      taken, at most one, to three decimals. */
  lemma LatencyAdherenceMeaning(executionMs: Option<int>, targetMs: Option<int>)
    ensures var known := executionMs.Some? && executionMs.value >= 0 && targetMs.Some? && targetMs.value > 0;
      && (!known ==> LatencyAdherence(executionMs, targetMs) == 0.5)
      && (known && executionMs.value > targetMs.value ==>
            var ratio := targetMs.value as real / executionMs.value as real;
            ratio - 0.0005 <= LatencyAdherence(executionMs, targetMs) <= ratio + 0.0005)
  {
    if executionMs.Some? && targetMs.Some? && executionMs.value > targetMs.value > 0 {
      var t, e := targetMs.value as real, executionMs.value as real;
      var ratio := t / e;
      assert ratio * e == t;
      if ratio > 1.0 {
        MulStrict(e, 1.0, ratio);
      }
      Round3Near(ratio);
    }
  }

  lemma RatioBounds(t: real, e: real)
    requires t > 0.0 && e > 0.0
    ensures t / e >= 0.0 && (t >= e ==> t / e >= 1.0)
  {
    var q := t / e;
    assert q * e == t;
    if q < 0.0 {
      MulStrict(e, q, 0.0);
    }
    if q < 1.0 {
      MulStrict(e, q, 1.0);
    }
  }

  /** The record after one more task outcome, before the score is recomputed. */
  function Counted(r: Record, success: bool, latency: real): Record {
    var successes := r.successfulTasks + if success then 1 else 0;
    r.(totalTasks := r.totalTasks + 1,
       successfulTasks := successes,
       outcomeRate := successes as real / (r.totalTasks + 1) as real,
       latency := Some(latency))
  }

  /** The penalty after one more valid verdict. */
  function Penalized(r: Record): Record {
    r.(disputePenalty := Round3(Min(r.disputePenalty + 0.15, 1.0)))
  }

  /** At a fixed instant a success never scores below a failure of the same task. */
  lemma SuccessNotBelowFailure(r: Record, latency: real, age: real, wo: real, wl: real, wd: real, wa: real)
    requires wo > 0.0 && wl > 0.0 && wd > 0.0 && wa > 0.0
    ensures var components := DefaultComponents(wo, wl, wd, wa);
      Recomputed(components, Counted(r, false, latency), age).trustScore
        <= Recomputed(components, Counted(r, true, latency), age).trustScore
  {
    var components := DefaultComponents(wo, wl, wd, wa);
    var failed, succeeded := Counted(r, false, latency).(ageFactor := age),
        Counted(r, true, latency).(ageFactor := age);
    DivideMonotone(r.successfulTasks as real, (r.successfulTasks + 1) as real, (r.totalTasks + 1) as real);
    assert NoBetter(components, failed, succeeded);
    ScoredMonotone(components, failed, succeeded);
  }

  lemma PenaltyGrows(r: Record)
    requires r.disputePenalty <= 1.0
    ensures r.disputePenalty <= Penalized(r).disputePenalty <= 1.0
  {
    Round3Near(Min(r.disputePenalty + 0.15, 1.0));
    Round3Exact(1000);
    Round3Monotone(Min(r.disputePenalty + 0.15, 1.0), 1.0);
  }

  /** At a fixed instant an extra valid verdict never raises the score. */
  lemma VerdictNeverRaises(r: Record, age: real, wo: real, wl: real, wd: real, wa: real)
    requires wo > 0.0 && wl > 0.0 && wd > 0.0 && wa > 0.0 && r.disputePenalty <= 1.0
    ensures var components := DefaultComponents(wo, wl, wd, wa);
      Recomputed(components, Penalized(r), age).trustScore <= Recomputed(components, r, age).trustScore
  {
    var components := DefaultComponents(wo, wl, wd, wa);
    var worse, better := Penalized(r).(ageFactor := age), r.(ageFactor := age);
    PenaltyGrows(r);
    assert NoBetter(components, worse, better);
    ScoredMonotone(components, worse, better);
  }

  /* ---------- disputes ---------- */

  datatype DisputeStatus = Open | UnderReview | ResolvedValid | ResolvedInvalid | Withdrawn

  datatype Verdict = Valid | Invalid | Withdraw

  datatype Dispute = Dispute(reported: AgentId, reporter: AgentId, status: DisputeStatus)

  datatype State = State(records: map<AgentId, Record>, disputes: map<DisputeId, Dispute>)

  const EMPTY := State(map[], map[])

  function StatusAfter(v: Verdict): DisputeStatus {
    match v
    case Valid => ResolvedValid
    case Invalid => ResolvedInvalid
    case Withdraw => Withdrawn
  }

  predicate Resolvable(s: State, d: DisputeId) {
    d in s.disputes && (s.disputes[d].status == Open || s.disputes[d].status == UnderReview)
  }

  datatype Op =
    | OpenRecord(agent: AgentId)
    | Outcome(agent: AgentId, success: bool, latency: real, age: real)
    | Flag(dispute: DisputeId, reported: AgentId, reporter: AgentId)
    | Review(dispute: DisputeId)
    | Resolve(dispute: DisputeId, verdict: Verdict, age: real)

  /** What a transaction stores of a record: the rate with three decimals, halves up, and not the
      latency reading, which lives only as long as the session. */
  function Persisted(r: Record): Record {
    r.(outcomeRate := (r.outcomeRate * 1000.0 + 0.5).Floor as real / 1000.0, latency := None)
  }

  function RecordOf(s: State, a: AgentId): Record {
    if a in s.records then s.records[a] else NEW_RECORD
  }

  /** The state after an operation; an operation that raises changes nothing. */
  function Apply(components: seq<Component>, s: State, op: Op): State {
    match op
    case OpenRecord(a) => s.(records := s.records[a := RecordOf(s, a)])
    case Outcome(a, success, latency, age) =>
      s.(records := s.records[a := Persisted(Recomputed(components, Counted(RecordOf(s, a), success, latency), age))])
    case Flag(d, reported, reporter) =>
      if reported == reporter || d in s.disputes then s
      else State(if reported in s.records
                 then s.records[reported := s.records[reported].(disputeCount := s.records[reported].disputeCount + 1)]
                 else s.records,
                 s.disputes[d := Dispute(reported, reporter, Open)])
    case Review(d) =>
      if d in s.disputes && s.disputes[d].status == Open
          then s.(disputes := s.disputes[d := s.disputes[d].(status := UnderReview)])
      else s
    case Resolve(d, verdict, age) =>
      if !Resolvable(s, d) then s
      else
        var a := s.disputes[d].reported;
        State(if a in s.records
              then
                var r := if verdict == Valid then Penalized(s.records[a]) else s.records[a];
                s.records[a := Persisted(Recomputed(components, r, age))]
              else s.records,
              s.disputes[d := s.disputes[d].(status := StatusAfter(verdict))])
  }

  function Run(components: seq<Component>, ops: seq<Op>): State {
    if ops == [] then EMPTY else Apply(components, Run(components, ops[..|ops| - 1]), ops[|ops| - 1])
  }

  class TrustService {
    var records: map<AgentId, Record>
    var disputes: map<DisputeId, Dispute>
    const components: seq<Component>

    function Contents(): State
      reads this
    {
      State(records, disputes)
    }

    constructor (components: seq<Component>)
      ensures Contents() == EMPTY && this.components == components
    {
      this.components := components;
      records, disputes := map[], map[];
    }

    method GetTrustRecord(agent: AgentId) returns (record: Record)
      modifies this`records
      ensures Contents() == Apply(components, old(Contents()), OpenRecord(agent)) && record == records[agent]
    {
      if agent !in records {
        records := records[agent := NEW_RECORD];
      }
      record := records[agent];
    }

    /** An outcome of a task of `agent`; the latency is the adherence measured for it. */
    method RecordOutcome(agent: AgentId, success: bool, executionMs: Option<int>, targetMs: Option<int>, age: real)
      modifies this`records
      ensures Contents() == Apply(components, old(Contents()),
           Outcome(agent, success, LatencyAdherence(executionMs, targetMs), age))
    {
      var record := if agent in records then records[agent] else NEW_RECORD;
      record := record.(totalTasks := record.totalTasks + 1);
      if success {
        record := record.(successfulTasks := record.successfulTasks + 1);
      }
      record := record.(outcomeRate := record.successfulTasks as real / record.totalTasks as real);
      record := record.(latency := Some(LatencyAdherence(executionMs, targetMs)));
      record := ComputeTrustScore(components, record, age);
      records := records[agent := Persisted(record)];
    }

    method FlagAgent(dispute: DisputeId, reported: AgentId, reporter: AgentId) returns (ok: bool)
      modifies this
      ensures Contents() == Apply(components, old(Contents()), Flag(dispute, reported, reporter))
      ensures ok <==> reported != reporter && dispute !in old(disputes)
    {
      if reported == reporter || dispute in disputes {
        return false;
      }
      disputes := disputes[dispute := Dispute(reported, reporter, Open)];
      if reported in records {
        records := records[reported := records[reported].(disputeCount := records[reported].disputeCount + 1)];
      }
      ok := true;
    }

    method MarkDisputeUnderReview(dispute: DisputeId) returns (ok: bool)
      modifies this`disputes
      ensures Contents() == Apply(components, old(Contents()), Review(dispute))
      ensures ok <==> dispute in old(disputes) && old(disputes)[dispute].status == Open
    {
      if dispute !in disputes || disputes[dispute].status != Open {
        return false;
      }
      disputes := disputes[dispute := disputes[dispute].(status := UnderReview)];
      ok := true;
    }

    method ResolveDispute(dispute: DisputeId, verdict: Verdict, age: real) returns (ok: bool)
      modifies this
      ensures Contents() == Apply(components, old(Contents()), Resolve(dispute, verdict, age))
      ensures ok <==> Resolvable(old(Contents()), dispute)
    {
      if dispute !in disputes || disputes[dispute].status !in {Open, UnderReview} {
        return false;
      }
      var agent := disputes[dispute].reported;
      disputes := disputes[dispute := disputes[dispute].(status := StatusAfter(verdict))];
      if agent in records {
        var record := records[agent];
        if verdict == Valid {
          record := record.(disputePenalty := Round3(Min(record.disputePenalty + 0.15, 1.0)));
        }
        record := ComputeTrustScore(components, record, age);
        records := records[agent := Persisted(record)];
      }
      ok := true;
    }
  }

  /* ---------- penalties over runs ---------- */

  /** A valid verdict against an agent that has a record. */
  predicate IsVerdict(s: State, op: Op, a: AgentId) {
    op.Resolve? && op.verdict == Valid && Resolvable(s, op.dispute) && s.disputes[op.dispute].reported == a
      && a in s.records
  }

  /** How many verdicts of a run were valid ones against an agent that had a record. */
  function ValidVerdicts(components: seq<Component>, ops: seq<Op>, a: AgentId): nat {
    if ops == [] then 0
    else
      var before, op := ops[..|ops| - 1], ops[|ops| - 1];
      var s := Run(components, before);
      ValidVerdicts(components, before, a)
        + if IsVerdict(s, op, a) then 1 else 0
  }

  function PenaltyAfter(k: nat): real {
    Min(1.0, 0.15 * k as real)
  }

  lemma PenaltyStep(k: nat)
    ensures Round3(Min(PenaltyAfter(k) + 0.15, 1.0)) == PenaltyAfter(k + 1)
  {
    if k + 1 <= 6 {
      Round3Exact(150 * (k + 1));
      assert PenaltyAfter(k) + 0.15 == (150 * (k + 1)) as real / 1000.0;
    } else {
      Round3Exact(1000);
    }
  }

  lemma VerdictPenalty(components: seq<Component>, s: State, op: Op, a: AgentId)
    requires a in Apply(components, s, op).records
    ensures var penalty := if a in s.records then s.records[a].disputePenalty else 0.0;
      Apply(components, s, op).records[a].disputePenalty
        == if IsVerdict(s, op, a) then Round3(Min(penalty + 0.15, 1.0)) else penalty
  {
  }

  /** Over every run, after `k` valid verdicts on an existing record the penalty is min(1, 0.15 k). */
  lemma {:induction false} PenaltyCountsVerdicts(components: seq<Component>, ops: seq<Op>, a: AgentId)
    ensures var s, k := Run(components, ops), ValidVerdicts(components, ops, a);
      && (a in s.records ==> s.records[a].disputePenalty == PenaltyAfter(k))
      && (a !in s.records ==> k == 0)
  {
    if ops != [] {
      var before := ops[..|ops| - 1];
      PenaltyCountsVerdicts(components, before, a);
      PenaltyStep(ValidVerdicts(components, before, a));
      var s, op := Run(components, before), ops[|ops| - 1];
      assert a in s.records ==> a in Apply(components, s, op).records;
      if a in Apply(components, s, op).records {
        VerdictPenalty(components, s, op, a);
      }
    }
  }

  /** In every reachable state, upholding a dispute never leaves a higher score than dismissing it
      at the same instant would. */
  lemma UpheldNeverHelps(ops: seq<Op>, d: DisputeId, age: real, wo: real, wl: real, wd: real, wa: real)
    requires wo > 0.0 && wl > 0.0 && wd > 0.0 && wa > 0.0
    requires var s := Run(DefaultComponents(wo, wl, wd, wa), ops);
      Resolvable(s, d) && s.disputes[d].reported in s.records
    ensures var components := DefaultComponents(wo, wl, wd, wa);
      var s := Run(components, ops);
      var a := s.disputes[d].reported;
      Apply(components, s, Resolve(d, Valid, age)).records[a].trustScore
        <= Apply(components, s, Resolve(d, Invalid, age)).records[a].trustScore
  {
    var components := DefaultComponents(wo, wl, wd, wa);
    var s := Run(components, ops);
    var a := s.disputes[d].reported;
    PenaltyCountsVerdicts(components, ops, a);
    VerdictNeverRaises(s.records[a], age, wo, wl, wd, wa);
  }

  /** A resolved dispute is final: no later operation changes it. */
  lemma {:induction false} ResolutionIsFinal(components: seq<Component>, ops: seq<Op>, i: nat, d: DisputeId)
    requires i <= |ops|
    requires d in Run(components, ops[..i]).disputes && !Resolvable(Run(components, ops[..i]), d)
    ensures d in Run(components, ops).disputes
         && Run(components, ops).disputes[d] == Run(components, ops[..i]).disputes[d]
    decreases |ops|
  {
    if i < |ops| {
      var before := ops[..|ops| - 1];
      assert before[..i] == ops[..i];
      ResolutionIsFinal(components, before, i, d);
    } else {
      assert ops[..i] == ops;
    }
  }

  /* ---------- the score in numbers ---------- */

  lemma SumOfFour(a: Weighted, b: Weighted, c: Weighted, d: Weighted)
    ensures WeightedSum([a, b, c, d])
         == a.weight * a.value + b.weight * b.value + c.weight * c.value + d.weight * d.value
    ensures WeightSum([a, b, c, d]) == a.weight + b.weight + c.weight + d.weight
  {
    var ws: seq<Weighted> := [];
    assert WeightedSum(ws) == 0.0 && WeightSum(ws) == 0.0;
    NextWeighted([], a.weight, a.value);
    assert [] + [a] == [a];
    NextWeighted([a], b.weight, b.value);
    assert [a] + [b] == [a, b];
    NextWeighted([a, b], c.weight, c.value);
    assert [a, b] + [c] == [a, b, c];
    NextWeighted([a, b, c], d.weight, d.value);
    assert [a, b, c] + [d] == [a, b, c, d];
  }

  /** The weighted mean of the four component values of the platform, to three decimals. */
  function FourMean(wo: real, o: real, wl: real, l: real, wd: real, d: real, wa: real, a: real): real
    requires wo > 0.0 && wl > 0.0 && wd > 0.0 && wa > 0.0
  {
    Round3(Clamp((wo * o + wl * l + wd * d + wa * a) / (wo + wl + wd + wa)))
  }

  lemma ScoreOfFour(wo: real, o: real, wl: real, l: real, wd: real, d: real, wa: real, a: real)
    requires wo > 0.0 && wl > 0.0 && wd > 0.0 && wa > 0.0
    ensures Score([Weighted(wo, o), Weighted(wl, l), Weighted(wd, d), Weighted(wa, a)])
         == FourMean(wo, o, wl, l, wd, d, wa, a)
  {
    var ws := [Weighted(wo, o), Weighted(wl, l), Weighted(wd, d), Weighted(wa, a)];
    var sum, weight := wo * o + wl * l + wd * d + wa * a, wo + wl + wd + wa;
    SumOfFour(Weighted(wo, o), Weighted(wl, l), Weighted(wd, d), Weighted(wa, a));
    assert WeightedSum(ws) == sum && WeightSum(ws) == weight;
    MeanOf(sum, weight);
    assert Score(ws) == Mean(sum, weight);
  }

  lemma MeanOf(sum: real, weight: real)
    requires weight > 0.0
    ensures Mean(sum, weight) == Round3(Clamp(sum / weight))
  {
  }

  lemma DefaultSurvives(r: Record, wo: real, wl: real, wd: real, wa: real)
    ensures Surviving(DefaultComponents(wo, wl, wd, wa), r)
         == [Weighted(wo, Clamp(r.outcomeRate)), Weighted(wl, Clamp(LatencyValue(r))),
             Weighted(wd, Clamp(1.0 - r.disputePenalty)), Weighted(wa, Clamp(r.ageFactor))]
  {
    var components := DefaultComponents(wo, wl, wd, wa);
    assert components[..0] == [] && components[..4] == components;
    assert Surviving(components[..0], r) == [];
    NextComponent(components, 0, r);
    NextComponent(components, 1, r);
    NextComponent(components, 2, r);
    NextComponent(components, 3, r);
  }

  lemma RecomputedScore(components: seq<Component>, r: Record, age: real)
    ensures Recomputed(components, r, age).trustScore == Score(Surviving(components, r.(ageFactor := age)))
  {
  }

  /** The latency component: the fresh reading, else the stored score, and neutral without either. */
  function AdherenceOf(r: Record): real {
    match r.latency
    case Some(reading) => reading
    case None => if "latency_adherence" in r.componentScores then r.componentScores["latency_adherence"] else 0.5
  }

  lemma LatencyValueIs(r: Record, age: real)
    ensures LatencyValue(r.(ageFactor := age)) == AdherenceOf(r)
  {
  }

  /** The score with the platform's components: the weighted mean of the outcome rate, the latency
      adherence, one less the penalty, and the age factor, each clamped, to three decimals. */
  lemma DefaultScore(r: Record, age: real, wo: real, wl: real, wd: real, wa: real)
    requires wo > 0.0 && wl > 0.0 && wd > 0.0 && wa > 0.0
    ensures Recomputed(DefaultComponents(wo, wl, wd, wa), r, age).trustScore
         == FourMean(wo, Clamp(r.outcomeRate), wl, Clamp(AdherenceOf(r)), wd, Clamp(1.0 - r.disputePenalty), wa,
                     Clamp(age))
  {
    RecomputedScore(DefaultComponents(wo, wl, wd, wa), r, age);
    LatencyValueIs(r, age);
    DefaultSurvives(r.(ageFactor := age), wo, wl, wd, wa);
    ScoreOfFour(wo, Clamp(r.outcomeRate), wl, Clamp(AdherenceOf(r)), wd, Clamp(1.0 - r.disputePenalty), wa,
                Clamp(age));
  }

  /* ---------- counts over runs ---------- */

  /** How many outcomes of an agent a run reports, all or the successful ones. */
  function Outcomes(ops: seq<Op>, a: AgentId, onlySuccesses: bool): nat {
    if ops == [] then 0
    else
      var op := ops[|ops| - 1];
      Outcomes(ops[..|ops| - 1], a, onlySuccesses)
        + if op.Outcome? && op.agent == a && (onlySuccesses ==> op.success) then 1 else 0
  }

  /** A flag that is accepted: nobody flags itself, and a dispute is opened once. */
  predicate Opens(s: State, op: Op) {
    op.Flag? && op.reported != op.reporter && op.dispute !in s.disputes
  }

  /** How many disputes a run opens against an agent while it has a record. */
  function FlagsAgainst(components: seq<Component>, ops: seq<Op>, a: AgentId): nat {
    if ops == [] then 0
    else
      var before, op := ops[..|ops| - 1], ops[|ops| - 1];
      var s := Run(components, before);
      FlagsAgainst(components, before, a) + if Opens(s, op) && op.reported == a && a in s.records then 1 else 0
  }

  /** An operation that makes sure that an agent has a record. */
  predicate Records(op: Op, a: AgentId) {
    (op.OpenRecord? || op.Outcome?) && op.agent == a
  }

  /** A quotient to three decimals, halves up. */
  function Thousandths(part: nat, whole: nat): real
    requires whole > 0
  {
    (part as real / whole as real * 1000.0 + 0.5).Floor as real / 1000.0
  }

  /** The stored rate: neutral before the first outcome. */
  function RateOf(successes: nat, total: nat): real {
    if total == 0 then 0.5 else Thousandths(successes, total)
  }

  lemma RateIsStored(successes: nat, total: nat)
    ensures var rate := RateOf(successes, total); (rate * 1000.0 + 0.5).Floor as real / 1000.0 == rate
  {
    if total == 0 {
      assert (500.5).Floor == 500;
    } else {
      var n := (successes as real / total as real * 1000.0 + 0.5).Floor;
      assert RateOf(successes, total) * 1000.0 == n as real;
      assert (n as real + 0.5).Floor == n;
    }
  }

  lemma StepCounts(components: seq<Component>, s: State, op: Op, a: AgentId)
    requires a in Apply(components, s, op).records
    requires RecordOf(s, a).outcomeRate == RateOf(RecordOf(s, a).successfulTasks, RecordOf(s, a).totalTasks)
    ensures var before, after := RecordOf(s, a), Apply(components, s, op).records[a];
      && after.totalTasks == before.totalTasks + (if op.Outcome? && op.agent == a then 1 else 0)
      && after.successfulTasks == before.successfulTasks + (if op.Outcome? && op.agent == a && op.success then 1 else 0)
      && after.outcomeRate == RateOf(after.successfulTasks, after.totalTasks)
      && (before.latency == None ==> after.latency == None)
      && after.disputeCount == before.disputeCount + (if Opens(s, op) && op.reported == a then 1 else 0)
  {
    RateIsStored(RecordOf(s, a).successfulTasks, RecordOf(s, a).totalTasks);
  }

  lemma StepRecords(components: seq<Component>, s: State, op: Op, a: AgentId)
    ensures a in Apply(components, s, op).records <==> a in s.records || Records(op, a)
  {
  }

  /** Over every run an agent has a record if and only if its record was opened or an outcome of it was
      reported; the record counts the outcomes and the successes among them, stores their quotient to
      three decimals, one half before the first, and counts the disputes opened against it since. */
  lemma {:induction false} RecordsOverRuns(components: seq<Component>, ops: seq<Op>, a: AgentId)
    ensures var s, total, successes := Run(components, ops), Outcomes(ops, a, false), Outcomes(ops, a, true);
      && (a in s.records <==> exists i :: 0 <= i < |ops| && Records(ops[i], a))
      && (a in s.records ==>
            var r := s.records[a];
            && r.totalTasks == total && r.successfulTasks == successes
            && r.outcomeRate == RateOf(successes, total) && r.latency == None
            && r.disputeCount == FlagsAgainst(components, ops, a))
      && (a !in s.records ==> total == successes == FlagsAgainst(components, ops, a) == 0)
  {
    if ops != [] {
      var init, op := ops[..|ops| - 1], ops[|ops| - 1];
      var s := Run(components, init);
      RecordsOverRuns(components, init, a);
      StepRecords(components, s, op, a);
      assert (exists i :: 0 <= i < |ops| && Records(ops[i], a))
        <==> (exists i :: 0 <= i < |init| && Records(init[i], a)) || Records(op, a) by {
        assert forall i :: 0 <= i < |init| ==> init[i] == ops[i];
      }
      if a in Run(components, ops).records {
        StepCounts(components, s, op, a);
      }
    }
  }

  /** A record that is first read is neutral, for an agent of no age. */
  lemma FirstRead(components: seq<Component>, s: State, a: AgentId)
    requires a !in s.records
    ensures var r := Apply(components, s, OpenRecord(a)).records[a];
      && r.trustScore == 0.5 && r.outcomeRate == 0.5 && r.ageFactor == 0.1 && r.disputePenalty == 0.0
      && r.componentScores == map[] && r.totalTasks == r.successfulTasks == r.disputeCount == 0
  {
  }

  lemma Round6Near(x: real)
    ensures x - 0.0000005 <= Round6(x) <= x + 0.0000005
  {
    RoundIntMeaning(x * 1000000.0);
  }

  lemma AdherenceIsStored(components: seq<Component>, r: Record, age: real, wo: real, wl: real, wd: real, wa: real)
    requires components == DefaultComponents(wo, wl, wd, wa)
    ensures var table := Recomputed(components, r, age).componentScores;
      "latency_adherence" in table && table["latency_adherence"] == Round6(Clamp(AdherenceOf(r)))
  {
    LatencyValueIs(r, age);
    assert DistinctNames(components);
    ScoreTableMeaning(components, r.(ageFactor := age));
    assert components[1].name == "latency_adherence";
  }

  /** What an outcome scores with the platform's components: its own rate and its own reading count, with the
      penalty so far; the reading is stored, to six decimals, for later scores. */
  lemma OutcomeScore(s: State, a: AgentId, success: bool, latency: real, age: real, wo: real, wl: real, wd: real,
                     wa: real)
    requires wo > 0.0 && wl > 0.0 && wd > 0.0 && wa > 0.0
    ensures var before := RecordOf(s, a);
      var after := Apply(DefaultComponents(wo, wl, wd, wa), s, Outcome(a, success, latency, age)).records[a];
      var rate := (before.successfulTasks + if success then 1 else 0) as real / (before.totalTasks + 1) as real;
      && after.trustScore
           == FourMean(wo, Clamp(rate), wl, Clamp(latency), wd, Clamp(1.0 - before.disputePenalty), wa, Clamp(age))
      && after.ageFactor == age && after.disputePenalty == before.disputePenalty
      && "latency_adherence" in after.componentScores
      && Clamp(latency) - 0.0000005 <= after.componentScores["latency_adherence"] <= Clamp(latency) + 0.0000005
  {
    var counted := Counted(RecordOf(s, a), success, latency);
    DefaultScore(counted, age, wo, wl, wd, wa);
    AdherenceIsStored(DefaultComponents(wo, wl, wd, wa), counted, age, wo, wl, wd, wa);
    Round6Near(Clamp(latency));
  }

  /* ---------- the life of a dispute ---------- */

  /** A call that resolves a dispute that is open or under review. */
  predicate Resolves(s: State, op: Op, d: DisputeId, verdict: Verdict) {
    op.Resolve? && op.dispute == d && op.verdict == verdict
      && d in s.disputes && s.disputes[d].status in {Open, UnderReview}
  }

  ghost predicate WasResolved(components: seq<Component>, ops: seq<Op>, d: DisputeId, verdict: Verdict) {
    exists i :: 0 <= i < |ops| && Resolves(Run(components, ops[..i]), ops[i], d, verdict)
  }

  predicate Reviews(s: State, op: Op, d: DisputeId) {
    op == Review(d) && d in s.disputes && s.disputes[d].status == Open
  }

  ghost predicate WasReviewed(components: seq<Component>, ops: seq<Op>, d: DisputeId) {
    exists i :: 0 <= i < |ops| && Reviews(Run(components, ops[..i]), ops[i], d)
  }

  /** A call that opens a dispute between two agents. */
  predicate OpensAs(s: State, op: Op, d: DisputeId, reported: AgentId, reporter: AgentId) {
    op == Flag(d, reported, reporter) && Opens(s, op)
  }

  ghost predicate WasOpened(components: seq<Component>, ops: seq<Op>, d: DisputeId, reported: AgentId,
                            reporter: AgentId)
  {
    exists i :: 0 <= i < |ops| && OpensAs(Run(components, ops[..i]), ops[i], d, reported, reporter)
  }

  lemma PrefixesSnoc(init: seq<Op>, op: Op)
    ensures var all := init + [op];
      && (forall i :: 0 <= i < |init| ==> all[..i] == init[..i] && all[i] == init[i])
      && all[..|init|] == init && all[|init|] == op && |all| == |init| + 1
  {
  }

  lemma ResolvedSnoc(components: seq<Component>, init: seq<Op>, op: Op, d: DisputeId, v: Verdict)
    ensures WasResolved(components, init + [op], d, v)
       <==> WasResolved(components, init, d, v) || Resolves(Run(components, init), op, d, v)
  {
    PrefixesSnoc(init, op);
  }

  lemma ReviewedSnoc(components: seq<Component>, init: seq<Op>, op: Op, d: DisputeId)
    ensures WasReviewed(components, init + [op], d)
       <==> WasReviewed(components, init, d) || Reviews(Run(components, init), op, d)
  {
    PrefixesSnoc(init, op);
  }

  lemma OpenedSnoc(components: seq<Component>, init: seq<Op>, op: Op, d: DisputeId, a: AgentId, b: AgentId)
    ensures WasOpened(components, init + [op], d, a, b)
       <==> WasOpened(components, init, d, a, b) || OpensAs(Run(components, init), op, d, a, b)
  {
    PrefixesSnoc(init, op);
  }

  /** What one call does to the two agents of a dispute. */
  lemma StepDispute(components: seq<Component>, s: State, op: Op, d: DisputeId)
    ensures var before, after := Get(s.disputes, d), Get(Apply(components, s, op).disputes, d);
      var opens := op.Flag? && op.dispute == d && Opens(s, op);
      && (opens ==> before == None && after == Some(Dispute(op.reported, op.reporter, Open)))
      && (!opens ==> (after.Some? <==> before.Some?))
      && (!opens && before.Some? ==> after.value == before.value.(status := after.value.status))
  {
  }

  function Get(disputes: map<DisputeId, Dispute>, d: DisputeId): Option<Dispute> {
    if d in disputes then Some(disputes[d]) else None
  }

  /** Over every run: there is a dispute between two agents under an id if and only if some call opened it
      between these two; and the two are different. */
  lemma {:induction false} DisputeIsOpened(components: seq<Component>, ops: seq<Op>, d: DisputeId, a: AgentId,
                                           b: AgentId)
    ensures var now := Get(Run(components, ops).disputes, d);
      && (now.Some? && now.value.reported == a && now.value.reporter == b <==> WasOpened(components, ops, d, a, b))
      && (now.Some? ==> now.value.reported != now.value.reporter)
  {
    if ops != [] {
      var init, op := ops[..|ops| - 1], ops[|ops| - 1];
      DisputeIsOpened(components, init, d, a, b);
      assert ops == init + [op];
      OpenedSnoc(components, init, op, d, a, b);
      StepDispute(components, Run(components, init), op, d);
    }
  }

  /** Which status goes with which history: resolved as the verdict that was given says, otherwise under
      review if it was reviewed, and otherwise open. */
  predicate StatusFits(now: Option<Dispute>, reviewed: bool, valid: bool, invalid: bool, withdrawn: bool) {
    match now
    case None => !reviewed && !valid && !invalid && !withdrawn
    case Some(dispute) =>
      && (dispute.status == ResolvedValid <==> valid)
      && (dispute.status == ResolvedInvalid <==> invalid)
      && (dispute.status == Withdrawn <==> withdrawn)
      && (dispute.status == UnderReview <==> reviewed && !valid && !invalid && !withdrawn)
  }

  lemma StatusStillFits(components: seq<Component>, s: State, op: Op, d: DisputeId, reviewed: bool, valid: bool,
                        invalid: bool, withdrawn: bool)
    requires StatusFits(Get(s.disputes, d), reviewed, valid, invalid, withdrawn)
    ensures StatusFits(Get(Apply(components, s, op).disputes, d), reviewed || Reviews(s, op, d),
              valid || Resolves(s, op, d, Valid), invalid || Resolves(s, op, d, Invalid),
              withdrawn || Resolves(s, op, d, Withdraw))
  {
  }

  /** The status of a dispute, over every run: it is resolved as a verdict says if and only if some call
      resolved it with that verdict, under review if and only if it was reviewed and never resolved, and
      otherwise open. */
  lemma {:induction false} DisputeStatusIff(components: seq<Component>, ops: seq<Op>, d: DisputeId)
    ensures StatusFits(Get(Run(components, ops).disputes, d), WasReviewed(components, ops, d),
              WasResolved(components, ops, d, Valid), WasResolved(components, ops, d, Invalid),
              WasResolved(components, ops, d, Withdraw))
  {
    if ops != [] {
      var init, op := ops[..|ops| - 1], ops[|ops| - 1];
      DisputeStatusIff(components, init, d);
      assert ops == init + [op];
      ReviewedSnoc(components, init, op, d);
      ResolvedSnoc(components, init, op, d, Valid);
      ResolvedSnoc(components, init, op, d, Invalid);
      ResolvedSnoc(components, init, op, d, Withdraw);
      StatusStillFits(components, Run(components, init), op, d, WasReviewed(components, init, d),
                      WasResolved(components, init, d, Valid), WasResolved(components, init, d, Invalid),
                      WasResolved(components, init, d, Withdraw));
    }
  }
}
