/**
 The fixed-window rate limiter over a store with expiring counters.  A request increments
 the counter of its client and path; the request that creates the counter sets its expiry
 in a second call, and other requests may come in between.
 */
module RateLimit {
  import opened Wrappers

  /** A stored counter; without an expiry it lives on. */
  datatype Counter = Counter(value: nat, expiresAt: Option<int>)

  /** The counter as the store sees it at `now`. */
  function Live(c: Option<Counter>, now: int): Option<Counter> {
    if c.Some? && c.value.expiresAt.Some? && now >= c.value.expiresAt.value then None else c
  }

  function Increment(c: Option<Counter>, now: int): (r: Counter)
    ensures r.value >= 1
  {
    match Live(c, now)
    case None => Counter(1, None)
    case Some(k) => k.(value := k.value + 1)
  }

  function SetExpiry(c: Option<Counter>, now: int, window: int): Option<Counter> {
    match Live(c, now)
    case None => None
    case Some(k) => Some(k.(expiresAt := Some(now + window)))
  }

  /** A flagged client keeps a quarter of its limit, but at least one request. */
  function EffectiveLimit(limit: nat, flagged: bool): nat {
    if flagged then if limit / 4 > 1 then limit / 4 else 1 else limit
  }

  /* ---------- the middleware ---------- */

  datatype Rule = Rule(pattern: string, limit: nat, window: int)

  const HOUR := 3600
  const MINUTE := 60

  const RULES: seq<Rule> := [
    Rule("/v1/agents/register", 10, HOUR),
    Rule("/v1/discover", 200, MINUTE),
    Rule("/v1/discovery/search", 200, MINUTE),
    Rule("/v1/messages", 1000, MINUTE),
    Rule("/v1/trust", 50, HOUR)
  ]

  const EXEMPT: seq<string> := ["/docs", "/redoc", "/openapi.json", "/health", "/v1/health", "/"]

  function RuleFor(rules: seq<Rule>, path: string): Option<Rule> {
    if rules == [] then None
    else if rules[0].pattern <= path then Some(rules[0])
    else RuleFor(rules[1..], path)
  }

  lemma {:induction false} RuleIsFirstMatch(rules: seq<Rule>, path: string)
    ensures RuleFor(rules, path).None? <==> forall i :: 0 <= i < |rules| ==> !(rules[i].pattern <= path)
    ensures RuleFor(rules, path).Some? ==>
              exists i :: 0 <= i < |rules| && RuleFor(rules, path).value == rules[i] && rules[i].pattern <= path
                && forall j :: 0 <= j < i ==> !(rules[j].pattern <= path)
  {
    if rules != [] && !(rules[0].pattern <= path) {
      RuleIsFirstMatch(rules[1..], path);
      assert forall i :: 1 <= i < |rules| ==> rules[i] == rules[1..][i - 1];
      if RuleFor(rules[1..], path).Some? {
        var i :| 0 <= i < |rules[1..]| && RuleFor(rules[1..], path).value == rules[1..][i]
            && rules[1..][i].pattern <= path
          && forall j :: 0 <= j < i ==> !(rules[1..][j].pattern <= path);
        assert rules[i + 1] == RuleFor(rules, path).value;
      }
    } else if rules != [] {
      assert RuleFor(rules, path).value == rules[0];
    }
  }

  datatype Decision = NotLimited | Passed(remaining: nat) | Rejected

  type Key = (string, string)

  class Limiter {
    var counters: map<Key, Counter>

    function Stored(key: Key): Option<Counter>
      reads this
    {
      if key in counters then Some(counters[key]) else None
    }

    /** One request that runs alone. */
    method Dispatch(client: Option<string>, path: string, flagged: bool, now: int) returns (decision: Decision)
      modifies this
      ensures path in EXEMPT || client.None? || client.value == "" || RuleFor(RULES, path).None? ==>
                decision == NotLimited && counters == old(counters)
      ensures path !in EXEMPT && client.Some? && client.value != "" && RuleFor(RULES, path).Some? ==>
                var rule, key := RuleFor(RULES, path).value, (client.value, path);
                var k, limit := Increment(old(Stored(key)), now), EffectiveLimit(rule.limit, flagged);
                && decision == (if k.value > limit then Rejected else Passed(limit - k.value))
                && Stored(key) == (if k.value == 1 then SetExpiry(Some(k), now, rule.window) else Some(k))
                && counters - {key} == old(counters) - {key}
    {
      if path in EXEMPT || client.None? || client.value == "" {
        return NotLimited;
      }
      var rule := RuleFor(RULES, path);
      if rule.None? {
        return NotLimited;
      }
      var limit, window := rule.value.limit, rule.value.window;
      if flagged {
        limit := if limit / 4 > 1 then limit / 4 else 1;
      }
      var key := (client.value, path);
      var live := Live(Stored(key), now);
      var current := if live.Some? then live.value.value + 1 else 1;
      counters := counters[key := Counter(current, if live.Some? then live.value.expiresAt else None)];
      if current == 1 {
        counters := counters[key := Counter(current, Some(now + window))];
      }
      if current > limit {
        return Rejected;
      }
      decision := Passed(limit - current);
    }
  }

  /* ---------- runs of one key ---------- */

  /** A request that passed: when, and in which life of the counter, counted from one. */
  datatype Pass = Pass(time: int, life: nat)

  /** The counter of one key with its history: when each life started and what passed. */
  datatype State = State(counter: Option<Counter>, now: int, starts: seq<int>, log: seq<Pass>)

  datatype Step =
    | Hit(now: int, flagged: bool)
    | ExpiryCall(now: int)

  function Init(now: int): State {
    State(None, now, [], [])
  }

  /** Time does not go back, and the expiry call follows the hit that created the counter. */
  predicate Enabled(s: State, step: Step) {
    match step
    case Hit(now, _) => now >= s.now
    case ExpiryCall(now) => now >= s.now && s.counter.Some? && s.counter.value.expiresAt.None?
  }

  function Apply(s: State, step: Step, limit: nat, window: int): State {
    match step
    case Hit(now, flagged) =>
      var k := Increment(s.counter, now);
      var starts := if Live(s.counter, now).None? then s.starts + [now] else s.starts;
      var log := if k.value > EffectiveLimit(limit, flagged) then s.log else s.log + [Pass(now, |starts|)];
      State(Some(k), now, starts, log)
    case ExpiryCall(now) =>
      s.(counter := SetExpiry(s.counter, now, window), now := now)
  }

  ghost predicate IsRun(states: seq<State>, steps: seq<Step>, limit: nat, window: int) {
    && |states| == |steps| + 1
    && states[0] == Init(states[0].now)
    && forall i :: 0 <= i < |steps| ==>
         Enabled(states[i], steps[i]) && states[i + 1] == Apply(states[i], steps[i], limit, window)
  }

  /** How many requests passed in the closed interval from `a` to `b`. */
  function PassedBetween(log: seq<Pass>, a: int, b: int): nat {
    if log == [] then 0
    else PassedBetween(log[..|log| - 1], a, b) + if a <= log[|log| - 1].time <= b then 1 else 0
  }

  function PassedInLife(log: seq<Pass>, life: nat): nat {
    if log == [] then 0
    else PassedInLife(log[..|log| - 1], life) + if log[|log| - 1].life == life then 1 else 0
  }

  predicate ApartAt(starts: seq<int>, window: int, i: int) {
    0 <= i < |starts| - 1 ==> starts[i] + window <= starts[i + 1]
  }

  /** Lives start at least a window apart, and expire no earlier than a window after their start. */
  ghost predicate StartsInv(s: State, window: int) {
    && (s.counter.None? <==> s.starts == [])
    && (forall i {:trigger ApartAt(s.starts, window, i)} :: ApartAt(s.starts, window, i))
    && (s.starts != [] ==> s.starts[|s.starts| - 1] <= s.now)
    && (s.counter.Some? && s.counter.value.expiresAt.Some? ==>
          s.counter.value.expiresAt.value >= s.starts[|s.starts| - 1] + window)
  }

  /** What passes in a life passes after its start and before the next life and its own expiry. */
  ghost predicate PassInv(s: State, p: Pass) {
    && 1 <= p.life <= |s.starts|
    && s.starts[p.life - 1] <= p.time <= s.now
    && (p.life < |s.starts| ==> p.time < s.starts[p.life])
    && (p.life == |s.starts| && s.counter.Some? && s.counter.value.expiresAt.Some? ==>
        p.time < s.counter.value.expiresAt.value)
  }

  ghost predicate LogInv(s: State) {
    && (forall i :: 0 <= i < |s.log| ==> PassInv(s, s.log[i]))
    && (forall i, j :: 0 <= i < j < |s.log| ==> s.log[i].life <= s.log[j].life)
  }

  ghost predicate CountInv(s: State, limit: nat) {
    && (forall g: nat :: PassedInLife(s.log, g) <= limit)
    && (s.counter.Some? ==> PassedInLife(s.log, |s.starts|) <= s.counter.value.value)
  }

  ghost predicate Inv(s: State, limit: nat, window: int) {
    StartsInv(s, window) && LogInv(s) && CountInv(s, limit)
  }

  lemma {:induction false} NoPassInLife(log: seq<Pass>, life: nat)
    requires forall i :: 0 <= i < |log| ==> log[i].life < life
    ensures PassedInLife(log, life) == 0
  {
    if log != [] {
      NoPassInLife(log[..|log| - 1], life);
    }
  }

  lemma AppendPass(log: seq<Pass>, p: Pass)
    ensures forall g: nat :: PassedInLife(log + [p], g) == PassedInLife(log, g) + if p.life == g then 1 else 0
  {
    assert (log + [p])[..|log|] == log;
  }

  lemma HitKeepsStarts(s: State, now: int, flagged: bool, limit: nat, window: int)
    requires StartsInv(s, window) && now >= s.now
    ensures StartsInv(Apply(s, Hit(now, flagged), limit, window), window)
  {
    var s' := Apply(s, Hit(now, flagged), limit, window);
    forall i
      ensures ApartAt(s'.starts, window, i)
    {
      assert ApartAt(s.starts, window, i);
    }
  }

  lemma HitKeepsLog(s: State, now: int, flagged: bool, limit: nat, window: int)
    requires StartsInv(s, window) && LogInv(s) && now >= s.now
    ensures LogInv(Apply(s, Hit(now, flagged), limit, window))
  {
    var s' := Apply(s, Hit(now, flagged), limit, window);
    forall i | 0 <= i < |s'.log|
      ensures PassInv(s', s'.log[i])
    {
      if i < |s.log| {
        assert PassInv(s, s.log[i]) && s'.log[i] == s.log[i];
      }
    }
    forall i, j | 0 <= i < j < |s'.log|
      ensures s'.log[i].life <= s'.log[j].life
    {
      assert PassInv(s, s.log[i]) && s'.log[i] == s.log[i];
    }
  }

  lemma HitKeepsCount(s: State, now: int, flagged: bool, limit: nat, window: int)
    requires LogInv(s) && CountInv(s, limit) && limit > 0
    ensures CountInv(Apply(s, Hit(now, flagged), limit, window), limit)
  {
    var s' := Apply(s, Hit(now, flagged), limit, window);
    if Live(s.counter, now).None? {
      assert forall i :: 0 <= i < |s.log| ==> PassInv(s, s.log[i]);
      NoPassInLife(s.log, |s'.starts|);
    }
    AppendPass(s.log, Pass(now, |s'.starts|));
  }

  lemma ExpiryKeepsInv(s: State, now: int, limit: nat, window: int)
    requires Inv(s, limit, window) && window > 0 && Enabled(s, ExpiryCall(now))
    ensures Inv(Apply(s, ExpiryCall(now), limit, window), limit, window)
  {
    var s' := Apply(s, ExpiryCall(now), limit, window);
    forall i | 0 <= i < |s'.log|
      ensures PassInv(s', s'.log[i])
    {
      assert PassInv(s, s.log[i]);
    }
  }

  lemma {:induction false} RunKeepsInv(states: seq<State>, steps: seq<Step>, limit: nat, window: int, i: nat)
    requires IsRun(states, steps, limit, window) && limit > 0 && window > 0 && i < |states|
    ensures Inv(states[i], limit, window)
  {
    if i > 0 {
      RunKeepsInv(states, steps, limit, window, i - 1);
      match steps[i - 1] {
        case Hit(now, flagged) =>
          HitKeepsStarts(states[i - 1], now, flagged, limit, window);
          HitKeepsLog(states[i - 1], now, flagged, limit, window);
          HitKeepsCount(states[i - 1], now, flagged, limit, window);
        case ExpiryCall(now) => ExpiryKeepsInv(states[i - 1], now, limit, window);
      }
    }
  }

  lemma {:induction false} StartsApart(starts: seq<int>, window: int, g: nat, k: nat)
    requires forall i {:trigger ApartAt(starts, window, i)} :: ApartAt(starts, window, i)
    requires window > 0 && g < k < |starts|
    ensures starts[g] + window <= starts[k]
  {
    assert ApartAt(starts, window, k - 1);
    if g < k - 1 {
      StartsApart(starts, window, g, k - 1);
    }
  }

  /** Two passes at most a window apart are in the same life or in neighbouring ones. */
  lemma NearPassesAreNeighbours(s: State, limit: nat, window: int, i: nat, j: nat)
    requires Inv(s, limit, window) && window > 0 && i <= j < |s.log| && s.log[j].time <= s.log[i].time + window
    ensures s.log[i].life <= s.log[j].life <= s.log[i].life + 1
  {
    var p, q := s.log[i], s.log[j];
    assert PassInv(s, p) && PassInv(s, q);
    if q.life >= p.life + 2 {
      StartsApart(s.starts, window, p.life, q.life - 1);
    }
  }

  lemma {:induction false} TwoLivesBound(log: seq<Pass>, a: int, b: int, life: nat)
    requires forall i :: 0 <= i < |log| && a <= log[i].time <= b ==> log[i].life == life || log[i].life == life + 1
    ensures PassedBetween(log, a, b) <= PassedInLife(log, life) + PassedInLife(log, life + 1)
  {
    if log != [] {
      TwoLivesBound(log[..|log| - 1], a, b, life);
    }
  }

  lemma {:induction false} NonePassed(log: seq<Pass>, a: int, b: int)
    requires forall i :: 0 <= i < |log| ==> !(a <= log[i].time <= b)
    ensures PassedBetween(log, a, b) == 0
  {
    if log != [] {
      NonePassed(log[..|log| - 1], a, b);
    }
  }

  /** The index of the first pass in an interval that contains one. */
  function FirstPass(log: seq<Pass>, a: int, b: int): (i: nat)
    requires exists i :: 0 <= i < |log| && a <= log[i].time <= b
    ensures i < |log| && a <= log[i].time <= b && forall j :: 0 <= j < i ==> !(a <= log[j].time <= b)
  {
    if a <= log[0].time <= b then 0
    else
      assert exists i :: 0 <= i < |log[1..]| && a <= log[1..][i].time <= b by {
        var i :| 0 <= i < |log| && a <= log[i].time <= b;
        assert log[1..][i - 1] == log[i];
      }
      1 + FirstPass(log[1..], a, b)
  }

  lemma FirstPassDecidesLives(s: State, limit: nat, window: int, a: int, first: nat)
    requires Inv(s, limit, window) && window > 0
    requires first < |s.log| && a <= s.log[first].time <= a + window
    requires forall j :: 0 <= j < first ==> !(a <= s.log[j].time <= a + window)
    ensures PassedBetween(s.log, a, a + window) <= 2 * limit
  {
    var life := s.log[first].life;
    forall j | 0 <= j < |s.log| && a <= s.log[j].time <= a + window
      ensures s.log[j].life == life || s.log[j].life == life + 1
    {
      NearPassesAreNeighbours(s, limit, window, first, j);
    }
    TwoLivesBound(s.log, a, a + window, life);
    assert PassedInLife(s.log, life) <= limit && PassedInLife(s.log, life + 1) <= limit;
  }

  /** Main result: over every run, in any interval of one window length, end points included, at
      most twice the limit of requests pass, whatever the flags were. */
  lemma AtMostTwiceTheLimit(states: seq<State>, steps: seq<Step>, limit: nat, window: int, i: nat, a: int)
    requires IsRun(states, steps, limit, window) && limit > 0 && window > 0 && i < |states|
    ensures PassedBetween(states[i].log, a, a + window) <= 2 * limit
  {
    RunKeepsInv(states, steps, limit, window, i);
    var log := states[i].log;
    if exists k :: 0 <= k < |log| && a <= log[k].time <= a + window {
      FirstPassDecidesLives(states[i], limit, window, a, FirstPass(log, a, a + window));
    } else {
      NonePassed(log, a, a + window);
    }
  }

  lemma {:induction false} OneLifeBound(log: seq<Pass>, a: int, b: int, life: nat)
    requires forall i :: 0 <= i < |log| && a <= log[i].time <= b ==> log[i].life == life
    ensures PassedBetween(log, a, b) <= PassedInLife(log, life)
  {
    if log != [] {
      OneLifeBound(log[..|log| - 1], a, b, life);
    }
  }

  /** Two passes with no start of a life after the first and up to the second share their life. */
  lemma SameLife(s: State, limit: nat, window: int, i: nat, j: nat)
    requires Inv(s, limit, window) && window > 0 && i <= j < |s.log|
    requires forall k :: 0 <= k < |s.starts| ==> !(s.log[i].time < s.starts[k] <= s.log[j].time)
    ensures s.log[i].life == s.log[j].life
  {
    var p, q := s.log[i], s.log[j];
    assert PassInv(s, p) && PassInv(s, q);
    if p.life < q.life {
      StartsGrow(s, limit, window, p.life, q.life - 1);
    }
  }

  lemma {:induction false} StartsGrow(s: State, limit: nat, window: int, g: nat, k: nat)
    requires Inv(s, limit, window) && window > 0 && g <= k < |s.starts|
    ensures s.starts[g] <= s.starts[k]
  {
    if g < k {
      StartsApart(s.starts, window, g, k);
    }
  }

  /** The limit itself holds in every interval in which no life of the counter starts after the
      beginning: it can only be exceeded across the expiry of a counter. */
  lemma LimitHoldsWithoutStart(states: seq<State>, steps: seq<Step>, limit: nat, window: int, i: nat, a: int, b: int)
    requires IsRun(states, steps, limit, window) && limit > 0 && window > 0 && i < |states|
    requires forall k :: 0 <= k < |states[i].starts| ==> !(a < states[i].starts[k] <= b)
    ensures PassedBetween(states[i].log, a, b) <= limit
  {
    RunKeepsInv(states, steps, limit, window, i);
    var s := states[i];
    if exists k :: 0 <= k < |s.log| && a <= s.log[k].time <= b {
      var first := FirstPass(s.log, a, b);
      forall j | 0 <= j < |s.log| && a <= s.log[j].time <= b
        ensures s.log[j].life == s.log[first].life
      {
        SameLife(s, limit, window, first, j);
      }
      OneLifeBound(s.log, a, b, s.log[first].life);
    } else {
      NonePassed(s.log, a, b);
    }
  }

  /* ---------- which requests pass ---------- */

  /** What a flagged client keeps: the quarter, rounded down, or one request. */
  lemma EffectiveLimitMeaning(limit: nat, flagged: bool)
    ensures var kept := EffectiveLimit(limit, flagged);
      && (!flagged ==> kept == limit)
      && (flagged ==> kept >= 1 && (limit >= 4 ==> 4 * kept <= limit < 4 * kept + 4) && (limit < 4 ==> kept == 1))
  {
  }

  /** The rules as they take effect: registrations and trust per hour, discovery and messages per minute;
      the rule for `/v1/discovery/search` is never reached. */
  lemma PlatformRules(path: string)
    ensures match RuleFor(RULES, path)
      case None => !("/v1/agents/register" <= path) && !("/v1/discover" <= path) && !("/v1/messages" <= path)
                   && !("/v1/trust" <= path)
      case Some(rule) =>
        && rule.pattern <= path && rule.pattern != "/v1/discovery/search"
        && (rule.pattern == "/v1/agents/register" ==> rule.limit == 10 && rule.window == 3600)
        && (rule.pattern == "/v1/discover" ==> rule.limit == 200 && rule.window == 60)
        && (rule.pattern == "/v1/messages" ==> rule.limit == 1000 && rule.window == 60)
        && (rule.pattern == "/v1/trust" ==> rule.limit == 50 && rule.window == 3600)
    ensures |RULES| == 5 && RULES[2] == Rule("/v1/discovery/search", 200, 60)
  {
    RuleIsFirstMatch(RULES, path);
    assert RULES[0].pattern == "/v1/agents/register" && RULES[1].pattern == "/v1/discover";
    assert RULES[3].pattern == "/v1/messages" && RULES[4].pattern == "/v1/trust";
    assert "/v1/discovery/search" <= path ==> "/v1/discover" <= path by {
      assert "/v1/discovery/search"[..|"/v1/discover"|] == "/v1/discover";
    }
  }

  /** How many requests came in the current life of the counter, refused ones included. */
  function HitsInLife(states: seq<State>, steps: seq<Step>, i: nat): nat
    requires |states| == |steps| + 1 && i < |states|
  {
    if i == 0 then 0
    else if steps[i - 1].ExpiryCall? then HitsInLife(states, steps, i - 1)
    else if |states[i].starts| > |states[i - 1].starts| then 1
    else HitsInLife(states, steps, i - 1) + 1
  }

  lemma {:induction false} CounterCountsHits(states: seq<State>, steps: seq<Step>, limit: nat, window: int, i: nat)
    requires IsRun(states, steps, limit, window) && i < |states|
    ensures states[i].counter.Some? ==> states[i].counter.value.value == HitsInLife(states, steps, i)
  {
    if i > 0 {
      CounterCountsHits(states, steps, limit, window, i - 1);
    }
  }

  /** Which requests pass, over every run: exactly those that are at most the limit of their client in
      the current life of the counter, refused requests counted. */
  lemma PassesIff(states: seq<State>, steps: seq<Step>, limit: nat, window: int, i: nat)
    requires IsRun(states, steps, limit, window) && i < |steps| && steps[i].Hit?
    ensures var before, after := states[i].log, states[i + 1].log;
      && after == (if HitsInLife(states, steps, i + 1) <= EffectiveLimit(limit, steps[i].flagged)
                   then before + [Pass(steps[i].now, |states[i + 1].starts|)] else before)
      && states[i + 1].now == steps[i].now
  {
    CounterCountsHits(states, steps, limit, window, i + 1);
  }

  /** The expiry call gives the counter a window to live and moves only the clock besides. */
  lemma ExpiryGivesWindow(states: seq<State>, steps: seq<Step>, limit: nat, window: int, i: nat)
    requires IsRun(states, steps, limit, window) && i < |steps| && steps[i].ExpiryCall?
    ensures var s, s' := states[i], states[i + 1];
      && s'.counter.Some? && s'.counter.value.value == s.counter.value.value
      && s'.counter.value.expiresAt == Some(steps[i].now + window)
      && s'.now == steps[i].now && s'.starts == s.starts && s'.log == s.log
  {
  }

  /** A request that runs alone is a hit and, if it starts a life, the expiry call at once: the counter
      and the decision of the middleware are those of the steps. */
  lemma DispatchIsHit(s: State, flagged: bool, now: int, limit: nat, window: int)
    requires now >= s.now && (s.counter.Some? ==> s.counter.value.value >= 1)
    ensures var k, hit := Increment(s.counter, now), Apply(s, Hit(now, flagged), limit, window);
      && hit.counter == Some(k)
      && (k.value > EffectiveLimit(limit, flagged) <==> |hit.log| == |s.log|)
      && (k.value == 1 ==> Enabled(hit, ExpiryCall(now))
                           && Apply(hit, ExpiryCall(now), limit, window).counter == SetExpiry(Some(k), now, window))
  {
  }

  /* ---------- a run that meets the bound ---------- */

  lemma ExtendRun(states: seq<State>, steps: seq<Step>, step: Step, limit: nat, window: int)
    returns (longer: seq<State>)
    requires IsRun(states, steps, limit, window) && Enabled(states[|steps|], step)
    ensures IsRun(longer, steps + [step], limit, window)
    ensures longer[|steps| + 1] == Apply(states[|steps|], step, limit, window)
  {
    longer := states + [Apply(states[|steps|], step, limit, window)];
    var more := steps + [step];
    forall i | 0 <= i < |more|
      ensures Enabled(longer[i], more[i]) && longer[i + 1] == Apply(longer[i], more[i], limit, window)
    {
      assert i < |steps| ==> more[i] == steps[i] && longer[i] == states[i] && longer[i + 1] == states[i + 1];
    }
  }

  lemma CountPass(log: seq<Pass>, p: Pass, a: int, b: int)
    ensures PassedBetween(log + [p], a, b) == PassedBetween(log, a, b) + if a <= p.time <= b then 1 else 0
  {
    assert (log + [p])[..|log|] == log;
  }

  /** The counter stands at `value` in a life that started and was given its expiry at `t`. */
  predicate InLife(s: State, t: int, window: int, value: nat) {
    s.now == t && s.counter == Some(Counter(value, Some(t + window)))
  }

  /** A life starts: its first request and the expiry call. */
  lemma StartLife(states: seq<State>, steps: seq<Step>, t: int, limit: nat, window: int, a: int, b: int)
    returns (states': seq<State>, steps': seq<Step>)
    requires IsRun(states, steps, limit, window) && window > 0 && limit > 0 && a <= t <= b
    requires states[|steps|].now <= t && Live(states[|steps|].counter, t).None?
    ensures IsRun(states', steps', limit, window)
    ensures InLife(states'[|steps'|], t, window, 1)
    ensures PassedBetween(states'[|steps'|].log, a, b) == PassedBetween(states[|steps|].log, a, b) + 1
  {
    var s := states[|steps|];
    var next := ExtendRun(states, steps, Hit(t, false), limit, window);
    CountPass(s.log, Pass(t, |s.starts + [t]|), a, b);
    steps' := steps + [Hit(t, false)];
    states' := ExtendRun(next, steps', ExpiryCall(t), limit, window);
    steps' := steps' + [ExpiryCall(t)];
  }

  /** One more request in the same life. */
  lemma HitAgain(states: seq<State>, steps: seq<Step>, t: int, n: nat, limit: nat, window: int, a: int, b: int)
    returns (states': seq<State>, steps': seq<Step>)
    requires IsRun(states, steps, limit, window) && window > 0 && 0 < n < limit && a <= t <= b
    requires InLife(states[|steps|], t, window, n)
    ensures IsRun(states', steps', limit, window)
    ensures InLife(states'[|steps'|], t, window, n + 1)
    ensures PassedBetween(states'[|steps'|].log, a, b) == PassedBetween(states[|steps|].log, a, b) + 1
  {
    var s := states[|steps|];
    states' := ExtendRun(states, steps, Hit(t, false), limit, window);
    steps' := steps + [Hit(t, false)];
    CountPass(s.log, Pass(t, |s.starts|), a, b);
  }

  /** A life with `n` requests, all at its start. */
  lemma {:induction false} FullLife(states: seq<State>, steps: seq<Step>, t: int, n: nat, limit: nat, window: int,
                                    a: int, b: int)
    returns (states': seq<State>, steps': seq<Step>)
    requires IsRun(states, steps, limit, window) && window > 0 && 0 < n <= limit && a <= t <= b
    requires states[|steps|].now <= t && Live(states[|steps|].counter, t).None?
    ensures IsRun(states', steps', limit, window)
    ensures InLife(states'[|steps'|], t, window, n)
    ensures PassedBetween(states'[|steps'|].log, a, b) == PassedBetween(states[|steps|].log, a, b) + n
    decreases n
  {
    if n == 1 {
      states', steps' := StartLife(states, steps, t, limit, window, a, b);
    } else {
      var before, taken := FullLife(states, steps, t, n - 1, limit, window, a, b);
      states', steps' := HitAgain(before, taken, t, n - 1, limit, window, a, b);
    }
  }

  /** The bound is exact for every limit and window: a full life, and at its expiry another one. */
  lemma BoundIsTight(limit: nat, window: int) returns (states: seq<State>, steps: seq<Step>, a: int)
    requires limit > 0 && window > 0
    ensures IsRun(states, steps, limit, window)
    ensures PassedBetween(states[|steps|].log, a, a + window) == 2 * limit
  {
    a := 0;
    var first := [Init(0)];
    assert IsRun(first, [], limit, window);
    var before, taken := FullLife(first, [], 0, limit, limit, window, 0, window);
    states, steps := FullLife(before, taken, window, limit, limit, window, 0, window);
  }
}
