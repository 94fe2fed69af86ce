/**
 Capability discovery over the agent table, with the index as a candidate filter, and the
 services that write agents, trust scores and the index.  The question is when a search
 with the index returns what the table alone would return.
 */
module Discovery {
  import opened Wrappers
  import opened CapabilityIndex

  datatype AgentStatus = Active | Inactive | Suspended | Deregistered

  datatype AgentRow = AgentRow(status: AgentStatus, deleted: bool, capabilities: seq<Item>, lastSeen: Option<int>)

  datatype State = State(agents: map<AgentId, AgentRow>, trust: map<AgentId, real>, directory: Directory)

  const DEFAULT_SCORE := 0.5

  const EMPTY := State(map[], map[], map[])

  /** The persisted trust score, or the default of an agent without a record. */
  function Score(s: State, a: AgentId): real {
    if a in s.trust then s.trust[a] else DEFAULT_SCORE
  }

  predicate Live(s: State, a: AgentId) {
    a in s.agents && !s.agents[a].deleted
  }

  predicate Offers(row: AgentRow, capability: string) {
    Record(Some(capability)) in row.capabilities
  }

  /* ---------- search ---------- */

  /** A query: capabilities, minimum trust, status, and every other filter as a predicate. */
  datatype Query = Query(capabilities: seq<string>, minTrust: Option<real>, status: AgentStatus, other: AgentId -> bool)

  /** The agents a query asks for, by the tables alone. */
  function Matching(s: State, q: Query): set<AgentId> {
    set a | a in s.agents
      && !s.agents[a].deleted
      && s.agents[a].status == q.status
      && (forall c :: c in q.capabilities ==> Offers(s.agents[a], c))
      && (q.minTrust.Some? ==> a in s.trust && s.trust[a] >= q.minTrust.value)
      && q.other(a)
  }

  /** The index's candidates, or nothing when no capability name is requested. */
  function Candidates(s: State, q: Query): Option<set<AgentId>> {
    if Requested(q.capabilities) == {} then None
    else Some(Scan(s.directory, Requested(q.capabilities), q.minTrust))
  }

  /** What a search with the index returns. */
  function Found(s: State, q: Query): set<AgentId> {
    match Candidates(s, q)
    case None => Matching(s, q)
    case Some(ids) => Matching(s, q) * ids
  }

  /** The live agents of the index and the status that offer the first `n` capabilities. */
  function Offering(s: State, q: Query, indexed: Option<set<AgentId>>, n: nat): set<AgentId>
    requires n <= |q.capabilities|
  {
    set a | a in s.agents
      && !s.agents[a].deleted
      && (indexed.Some? ==> a in indexed.value)
      && s.agents[a].status == q.status
      && (forall c :: c in q.capabilities[..n] ==> Offers(s.agents[a], c))
  }

  lemma NextOffering(s: State, q: Query, indexed: Option<set<AgentId>>, n: nat)
    requires n < |q.capabilities|
    ensures Offering(s, q, indexed, n + 1)
         == set a | a in Offering(s, q, indexed, n) && Offers(s.agents[a], q.capabilities[n])
  {
    assert q.capabilities[..n + 1] == q.capabilities[..n] + [q.capabilities[n]];
  }

  /** The filters of a search one by one, with the candidates of the index. */
  lemma FoundByFilters(s: State, q: Query, indexed: Option<set<AgentId>>, selected: set<AgentId>)
    requires indexed == Candidates(s, q)
    requires selected == set a | a in Offering(s, q, indexed, |q.capabilities|)
      && (q.minTrust.Some? ==> a in s.trust && s.trust[a] >= q.minTrust.value)
      && q.other(a)
    ensures selected == Found(s, q)
  {
    assert q.capabilities[..|q.capabilities|] == q.capabilities;
  }

  /** Sorting and paging are a function of the agents found. */
  type Pager = set<AgentId> -> seq<AgentId>

  /* ---------- writers ---------- */

  datatype Op =
    | Register(agent: AgentId, capabilities: seq<Item>)
    | Update(agent: AgentId, newCapabilities: Option<seq<Item>>, newStatus: Option<AgentStatus>)
    | Deregister(agent: AgentId)
    | MarkInactive(threshold: int)
    | Heartbeat(agent: AgentId, now: int)
    | OpenTrustRecord(agent: AgentId)
    | SetTrust(agent: AgentId, score: real)

  function Updated(row: AgentRow, capabilities: Option<seq<Item>>, status: Option<AgentStatus>): AgentRow {
    row.(capabilities := if capabilities.Some? then capabilities.value else row.capabilities,
         status := if status.Some? then status.value else row.status)
  }

  predicate MissedHeartbeats(row: AgentRow, threshold: int) {
    row.status == Active && !row.deleted && row.lastSeen.Some? && row.lastSeen.value < threshold
  }

  function Due(agents: map<AgentId, AgentRow>, threshold: int): set<AgentId> {
    set a | a in agents && MissedHeartbeats(agents[a], threshold)
  }

  function Marked(agents: map<AgentId, AgentRow>, threshold: int): map<AgentId, AgentRow> {
    map a | a in agents :: if MissedHeartbeats(agents[a], threshold) then agents[a].(status := Inactive) else agents[a]
  }

  lemma MarkedPointwise(before: map<AgentId, AgentRow>, after: map<AgentId, AgentRow>, threshold: int)
    requires after.Keys == before.Keys
    requires forall a :: a in after ==>
      after[a] == if a in Due(before, threshold) then before[a].(status := Inactive) else before[a]
    ensures after == Marked(before, threshold)
  {
  }

  /** The state after an operation; an operation that raises changes nothing. */
  function Apply(s: State, op: Op): State {
    match op
    case Register(a, capabilities) =>
      if a in s.agents then s
      else s.(agents := s.agents[a := AgentRow(Active, false, capabilities, None)],
              directory := Synced(s.directory, a, NamesOf(capabilities), DEFAULT_SCORE, true))
    case Update(a, capabilities, status) =>
      if !Live(s, a) then s
      else
        var row := Updated(s.agents[a], capabilities, status);
        s.(agents := s.agents[a := row],
           directory := Synced(s.directory, a, NamesOf(row.capabilities), Score(s, a), row.status == Active))
    case Deregister(a) =>
      if a !in s.agents then s
      else s.(agents := s.agents[a := s.agents[a].(status := Deregistered, deleted := true)],
              directory := Removed(s.directory, a))
    case MarkInactive(threshold) =>
      s.(agents := Marked(s.agents, threshold))
    case Heartbeat(a, now) =>
      if !Live(s, a) then s
      else s.(agents := s.agents[a := s.agents[a].(status := Active, lastSeen := Some(now))])
    case OpenTrustRecord(a) =>
      if a !in s.agents || a in s.trust then s else s.(trust := s.trust[a := DEFAULT_SCORE])
    case SetTrust(a, score) =>
      if a !in s.agents then s
      else s.(trust := s.trust[a := score], directory := Rescored(s.directory, a, score))
  }

  function Run(s: State, ops: seq<Op>): State {
    if ops == [] then s else Apply(Run(s, ops[..|ops| - 1]), ops[|ops| - 1])
  }

  /* ---------- the services ---------- */

  class Platform {
    var agents: map<AgentId, AgentRow>
    var trust: map<AgentId, real>
    const index: RedisIndex

    ghost function Contents(): State
      reads this, index
    {
      State(agents, trust, index.directory)
    }

    constructor ()
      ensures index.Valid() && fresh(index) && Contents() == EMPTY
    {
      agents, trust := map[], map[];
      index := new RedisIndex();
    }

    method RegisterAgent(agent: AgentId, capabilities: seq<Item>) returns (ok: bool)
      requires index.Valid()
      modifies this, index
      ensures index.Valid() && Contents() == Apply(old(Contents()), Register(agent, capabilities))
      ensures ok <==> agent !in old(agents)
    {
      if agent in agents {
        return false;
      }
      agents := agents[agent := AgentRow(Active, false, capabilities, None)];
      index.SyncAgent(agent, capabilities, DEFAULT_SCORE, true);
      ok := true;
    }

    method UpdateAgent(agent: AgentId, newCapabilities: Option<seq<Item>>, newStatus: Option<AgentStatus>)
      returns (ok: bool)
      requires index.Valid()
      modifies this, index
      ensures index.Valid() && Contents() == Apply(old(Contents()), Update(agent, newCapabilities, newStatus))
      ensures ok <==> Live(old(Contents()), agent)
    {
      if agent !in agents || agents[agent].deleted {
        return false;
      }
      var row := agents[agent];
      if newCapabilities.Some? {
        row := row.(capabilities := newCapabilities.value);
      }
      if newStatus.Some? {
        row := row.(status := newStatus.value);
      }
      agents := agents[agent := row];
      var score := if agent in trust then trust[agent] else DEFAULT_SCORE;
      index.SyncAgent(agent, row.capabilities, score, row.status == Active);
      ok := true;
    }

    method DeregisterAgent(agent: AgentId) returns (ok: bool)
      requires index.Valid()
      modifies this, index
      ensures index.Valid() && Contents() == Apply(old(Contents()), Deregister(agent))
      ensures ok <==> agent in old(agents)
    {
      if agent !in agents {
        return false;
      }
      agents := agents[agent := agents[agent].(status := Deregistered, deleted := true)];
      index.RemoveAgent(agent);
      ok := true;
    }

    /** Goes through the agents in any order. */
    method MarkInactiveAgents(threshold: int) returns (count: nat)
      modifies this`agents
      ensures Contents() == Apply(old(Contents()), MarkInactive(threshold))
      ensures count == |Due(old(agents), threshold)|
    {
      var due := Due(agents, threshold);
      count := |due|;
      var rest := due;
      while rest != {}
        invariant rest <= due <= agents.Keys == old(agents).Keys
        invariant forall a :: a in agents ==>
          agents[a] == if a in due - rest then old(agents)[a].(status := Inactive) else old(agents)[a]
        decreases rest
      {
        var a :| a in rest;
        agents := agents[a := agents[a].(status := Inactive)];
        rest := rest - {a};
      }
      MarkedPointwise(old(agents), agents, threshold);
    }

    method SendHeartbeat(agent: AgentId, now: int) returns (ok: bool)
      modifies this`agents
      ensures Contents() == Apply(old(Contents()), Heartbeat(agent, now))
      ensures ok <==> Live(old(Contents()), agent)
    {
      if agent !in agents || agents[agent].deleted {
        return false;
      }
      agents := agents[agent := agents[agent].(status := Active, lastSeen := Some(now))];
      ok := true;
    }

    /** Reading the trust of an agent without a record creates the record. */
    method GetTrustRecord(agent: AgentId) returns (score: Option<real>)
      modifies this`trust
      ensures Contents() == Apply(old(Contents()), OpenTrustRecord(agent))
      ensures score == if agent in old(agents) || agent in old(trust) then Some(Score(old(Contents()), agent)) else None
    {
      if agent in trust {
        return Some(trust[agent]);
      }
      if agent !in agents {
        return None;
      }
      trust := trust[agent := DEFAULT_SCORE];
      score := Some(DEFAULT_SCORE);
    }

    /** The common end of outcomes, endorsements and disputes: store and index a new score. */
    method StoreTrustScore(agent: AgentId, score: real) returns (ok: bool)
      requires index.Valid()
      modifies this`trust, index
      ensures index.Valid() && Contents() == Apply(old(Contents()), SetTrust(agent, score))
      ensures ok <==> agent in agents
    {
      if agent !in agents {
        return false;
      }
      trust := trust[agent := score];
      index.UpdateAgentScore(agent, score);
      ok := true;
    }

    /** The filter steps of a search, one after the other, and the page of the result. */
    method Search(q: Query, pager: Pager) returns (total: nat, page: seq<AgentId>)
      requires index.Valid()
      ensures total == |Found(Contents(), q)| && page == pager(Found(Contents(), q))
      ensures SearchesAgree(Contents(), q.status) ==>
                total == |Matching(Contents(), q)| && page == pager(Matching(Contents(), q))
    {
      ghost var s := Contents();
      var indexed := index.CandidateIds(q.capabilities, q.minTrust);
      assert Contents() == s && indexed == Candidates(s, q);
      var selected := set a | a in agents && !agents[a].deleted && (indexed.Some? ==> a in indexed.value);
      selected := set a | a in selected && agents[a].status == q.status;
      for i := 0 to |q.capabilities|
        invariant selected == Offering(s, q, indexed, i)
      {
        NextOffering(s, q, indexed, i);
        selected := set a | a in selected && Offers(agents[a], q.capabilities[i]);
      }
      if q.minTrust.Some? {
        selected := set a | a in selected && a in trust && trust[a] >= q.minTrust.value;
      }
      selected := set a | a in selected && q.other(a);
      FoundByFilters(s, q, indexed, selected);
      assert SearchesAgree(s, q.status) ==> selected == Matching(s, q);
      total, page := |selected|, pager(selected);
    }
  }

  /* ---------- coherence ---------- */

  /** The index entry of an agent has its names and its score, if it has names. */
  predicate EntryFits(s: State, a: AgentId)
    requires a in s.agents
  {
    var names := NamesOf(s.agents[a].capabilities);
    if names == {} then a !in s.directory
    else a in s.directory && s.directory[a].names == names && s.directory[a].score == Score(s, a)
  }

  /** Names and scores of live agents are indexed; holds over every run of all operations. */
  ghost predicate NamesIndexed(s: State) {
    s.trust.Keys <= s.agents.Keys && forall a {:trigger EntryFits(s, a)} :: Live(s, a) ==> EntryFits(s, a)
  }

  predicate Shown(s: State, a: AgentId)
    requires a in s.agents
  {
    NamesOf(s.agents[a].capabilities) != {} ==> a in s.directory && s.directory[a].visible
  }

  /** Every live agent of a status with names is visible in the index. */
  ghost predicate StatusShown(s: State, status: AgentStatus) {
    forall a :: Live(s, a) && s.agents[a].status == status ==> Shown(s, a)
  }

  lemma ApplyKeepsEntry(s: State, op: Op, a: AgentId)
    requires NamesIndexed(s) && Live(Apply(s, op), a)
    ensures EntryFits(Apply(s, op), a)
  {
    if a in s.agents {
      assert Live(s, a);
      assert EntryFits(s, a);
    }
  }

  lemma ApplyKeepsNames(s: State, op: Op)
    requires NamesIndexed(s)
    ensures NamesIndexed(Apply(s, op))
  {
    var s' := Apply(s, op);
    forall a | Live(s', a)
      ensures EntryFits(s', a)
    {
      ApplyKeepsEntry(s, op, a);
    }
  }

  lemma {:induction false} RunKeepsNames(ops: seq<Op>)
    ensures NamesIndexed(Run(EMPTY, ops))
  {
    if ops != [] {
      RunKeepsNames(ops[..|ops| - 1]);
      ApplyKeepsNames(Run(EMPTY, ops[..|ops| - 1]), ops[|ops| - 1]);
    }
  }

  /** A heartbeat that reaches an agent the index still shows (or one without names). */
  predicate SafeOp(s: State, op: Op) {
    op.Heartbeat? && Live(s, op.agent) ==> Shown(s, op.agent)
  }

  lemma ApplyKeepsShown(s: State, op: Op)
    requires NamesIndexed(s) && StatusShown(s, Active) && SafeOp(s, op)
    ensures StatusShown(Apply(s, op), Active)
  {
    var s' := Apply(s, op);
    forall a | Live(s', a) && s'.agents[a].status == Active
      ensures Shown(s', a)
    {
      if a in s.agents {
        assert Live(s, a) && EntryFits(s, a);
      }
    }
  }

  ghost predicate SafeRun(ops: seq<Op>) {
    forall i :: 0 <= i < |ops| ==> SafeOp(Run(EMPTY, ops[..i]), ops[i])
  }

  lemma {:induction false} SafeRunKeepsShown(ops: seq<Op>)
    requires SafeRun(ops)
    ensures StatusShown(Run(EMPTY, ops), Active)
  {
    if ops != [] {
      var init := ops[..|ops| - 1];
      assert forall i :: 0 <= i < |init| ==> init[i] == ops[i] && init[..i] == ops[..i];
      SafeRunKeepsShown(init);
      RunKeepsNames(init);
      ApplyKeepsShown(Run(EMPTY, init), ops[|ops| - 1]);
    }
  }

  /* ---------- searches with and without the index ---------- */

  lemma OfferedIsIndexed(row: AgentRow, capabilities: seq<string>)
    requires forall c :: c in capabilities ==> Offers(row, c)
    ensures Requested(capabilities) <= NamesOf(row.capabilities)
  {
    forall c | c in Requested(capabilities)
      ensures c in NamesOf(row.capabilities)
    {
      assert Record(Some(c)) in row.capabilities;
    }
  }

  /** With all agents of a status shown, a search for that status never loses one to the index. */
  lemma ShownSearchesAgree(s: State, q: Query)
    requires NamesIndexed(s) && StatusShown(s, q.status)
    ensures Found(s, q) == Matching(s, q)
  {
    forall a | a in Matching(s, q) && Requested(q.capabilities) != {}
      ensures a in Scan(s.directory, Requested(q.capabilities), q.minTrust)
    {
      OfferedIsIndexed(s.agents[a], q.capabilities);
      assert Live(s, a) && Shown(s, a) && EntryFits(s, a);
    }
  }

  /** All searches for a status find what the tables alone give. */
  ghost predicate SearchesAgree(s: State, status: AgentStatus) {
    forall q: Query :: q.status == status ==> Found(s, q) == Matching(s, q)
  }

  /** Without the restriction on heartbeats: all searches for a status agree exactly when every live
      agent of that status with names is shown. */
  lemma AgreeIffShown(s: State, status: AgentStatus)
    requires NamesIndexed(s)
    ensures SearchesAgree(s, status) <==> StatusShown(s, status)
  {
    if StatusShown(s, status) {
      forall q: Query | q.status == status
        ensures Found(s, q) == Matching(s, q)
      {
        ShownSearchesAgree(s, q);
      }
    }
    if SearchesAgree(s, status) {
      forall a | Live(s, a) && s.agents[a].status == status
        ensures Shown(s, a)
      {
        var names := NamesOf(s.agents[a].capabilities);
        if names != {} {
          var name :| name in names;
          LostByName(s, a, name);
        }
      }
    }
  }

  /** Over every run in which heartbeats only reach agents the index shows, every active search
      returns the same agents as without the index, for every capability list and with or without a
      minimum trust score; total and page are functions of the agents found. */
  lemma IndexIsTransparent(ops: seq<Op>)
    requires SafeRun(ops)
    ensures SearchesAgree(Run(EMPTY, ops), Active)
  {
    RunKeepsNames(ops);
    SafeRunKeepsShown(ops);
    AgreeIffShown(Run(EMPTY, ops), Active);
  }

  lemma LostByName(s: State, a: AgentId, name: string)
    requires Live(s, a) && name in NamesOf(s.agents[a].capabilities)
    requires SearchesAgree(s, s.agents[a].status)
    ensures a in s.directory && s.directory[a].visible
  {
    var q := Query([name], None, s.agents[a].status, _ => true);
    assert Offers(s.agents[a], name) by {
      var c :| c in s.agents[a].capabilities && c.Record? && c.name.Some? && c.name.value == name;
      assert c == Record(Some(name));
    }
    assert name in Requested(q.capabilities);
    assert a in Matching(s, q);
    assert Found(s, q) == Matching(s, q);
  }

  /** The exact condition on a heartbeat: from a state where all active searches agree, they still
      agree afterwards if and only if the index shows the agent or the agent has no names. */
  lemma HeartbeatCondition(ops: seq<Op>, a: AgentId, now: int)
    requires SearchesAgree(Run(EMPTY, ops), Active) && Live(Run(EMPTY, ops), a)
    ensures SearchesAgree(Run(EMPTY, ops + [Heartbeat(a, now)]), Active) <==> Shown(Run(EMPTY, ops), a)
  {
    var s, op := Run(EMPTY, ops), Heartbeat(a, now);
    assert (ops + [op])[..|ops|] == ops;
    var s' := Apply(s, op);
    RunKeepsNames(ops);
    ApplyKeepsNames(s, op);
    AgreeIffShown(s, Active);
    AgreeIffShown(s', Active);
    if Shown(s, a) {
      ApplyKeepsShown(s, op);
    } else {
      assert Live(s', a) && s'.agents[a].status == Active && !Shown(s', a);
    }
  }

  /** All active searches are right all along a run. */
  ghost predicate RightAllAlong(ops: seq<Op>) {
    forall i :: 0 <= i <= |ops| ==> SearchesAgree(Run(EMPTY, ops[..i]), Active)
  }

  lemma SafePrefix(ops: seq<Op>, i: nat)
    requires SafeRun(ops) && i <= |ops|
    ensures SafeRun(ops[..i])
  {
    assert forall k :: 0 <= k < i ==> ops[..i][k] == ops[k] && ops[..i][..k] == ops[..k];
  }

  /** Main result: the index is transparent all along a run if and only if every heartbeat of the run
      reaches an agent that the index shows or that has no names. */
  lemma TransparentIffSafe(ops: seq<Op>)
    ensures RightAllAlong(ops) <==> SafeRun(ops)
  {
    if SafeRun(ops) {
      forall i | 0 <= i <= |ops|
        ensures SearchesAgree(Run(EMPTY, ops[..i]), Active)
      {
        SafePrefix(ops, i);
        IndexIsTransparent(ops[..i]);
      }
    }
    if RightAllAlong(ops) {
      forall i | 0 <= i < |ops|
        ensures SafeOp(Run(EMPTY, ops[..i]), ops[i])
      {
        var before, op := ops[..i], ops[i];
        if op.Heartbeat? && Live(Run(EMPTY, before), op.agent) {
          assert ops[..i + 1] == before + [op];
          HeartbeatCondition(before, op.agent, op.now);
        }
      }
    }
  }

  lemma RunSnoc(s: State, ops: seq<Op>, op: Op)
    ensures Run(s, ops + [op]) == Apply(Run(s, ops), op)
  {
    assert (ops + [op])[..|ops|] == ops;
  }

  /* ---------- what a search finds ---------- */

  /** A query that names only capabilities of the list. */
  predicate AsksFor(q: Query, capabilities: seq<Item>) {
    forall i :: 0 <= i < |q.capabilities| ==> Record(Some(q.capabilities[i])) in capabilities
  }

  lemma AsksForNames(q: Query, capabilities: seq<Item>)
    requires AsksFor(q, capabilities)
    ensures Requested(q.capabilities) <= NamesOf(capabilities)
  {
    forall c | c in Requested(q.capabilities)
      ensures c in NamesOf(capabilities)
    {
      assert Record(Some(c)) in capabilities;
    }
  }

  /** What the table row of an agent says to a query. */
  predicate Answers(row: AgentRow, trust: Option<real>, a: AgentId, q: Query) {
    && !row.deleted && row.status == q.status && AsksFor(q, row.capabilities) && q.other(a)
    && (q.minTrust.Some? ==> trust.Some? && trust.value >= q.minTrust.value)
  }

  lemma MatchingIff(s: State, q: Query, a: AgentId)
    requires a in s.agents
    ensures a in Matching(s, q)
       <==> Answers(s.agents[a], if a in s.trust then Some(s.trust[a]) else None, a, q)
  {
    if forall c :: c in q.capabilities ==> Offers(s.agents[a], c) {
      forall i | 0 <= i < |q.capabilities|
        ensures Record(Some(q.capabilities[i])) in s.agents[a].capabilities
      {
        assert Offers(s.agents[a], q.capabilities[i]);
      }
    }
  }

  /** What is found of one agent whose index entry fits: it answers the query and, if the query names a
      capability at all, the index shows the agent. */
  lemma FoundIff(s: State, q: Query, a: AgentId)
    requires Live(s, a) && EntryFits(s, a)
    ensures a in Found(s, q)
       <==> Answers(s.agents[a], if a in s.trust then Some(s.trust[a]) else None, a, q)
            && ((exists i :: 0 <= i < |q.capabilities| && q.capabilities[i] != "") ==>
                  a in s.directory && s.directory[a].visible)
  {
    MatchingIff(s, q, a);
    assert Requested(q.capabilities) != {} <==> exists i :: 0 <= i < |q.capabilities| && q.capabilities[i] != "" by {
      if i :| 0 <= i < |q.capabilities| && q.capabilities[i] != "" {
        assert q.capabilities[i] in Requested(q.capabilities);
      }
    }
    if AsksFor(q, s.agents[a].capabilities) {
      AsksForNames(q, s.agents[a].capabilities);
    }
  }

  /** An agent that has just registered is found exactly by the queries for active agents that name only
      its capabilities and ask for no trust, as it has no trust record yet. */
  lemma RegisteredIsFound(before: seq<Op>, a: AgentId, capabilities: seq<Item>, q: Query)
    requires a !in Run(EMPTY, before).agents
    ensures a in Found(Run(EMPTY, before + [Register(a, capabilities)]), q)
       <==> q.status == Active && AsksFor(q, capabilities) && q.minTrust.None? && q.other(a)
  {
    RunKeepsNames(before);
    RunKeepsNames(before + [Register(a, capabilities)]);
    RunSnoc(EMPTY, before, Register(a, capabilities));
    var s := Run(EMPTY, before + [Register(a, capabilities)]);
    assert EntryFits(s, a);
    FoundIff(s, q, a);
    if AsksFor(q, capabilities) {
      AsksForNames(q, capabilities);
      if i :| 0 <= i < |q.capabilities| && q.capabilities[i] != "" {
        assert q.capabilities[i] in Requested(q.capabilities);
      }
    }
  }

  /** Once its trust has been read it has the default score of one half, and once a score is stored that
      one: it is then found if the score reaches the minimum asked for. */
  lemma ScoredIsFound(before: seq<Op>, a: AgentId, capabilities: seq<Item>, scored: Op, q: Query)
    requires a !in Run(EMPTY, before).agents
    requires scored == OpenTrustRecord(a) || (scored.SetTrust? && scored.agent == a)
    ensures a in Found(Run(EMPTY, before + [Register(a, capabilities)] + [scored]), q)
       <==> q.status == Active && AsksFor(q, capabilities) && q.other(a)
            && (q.minTrust.Some? ==> (if scored.SetTrust? then scored.score else 0.5) >= q.minTrust.value)
  {
    var registered := before + [Register(a, capabilities)];
    RunKeepsNames(before);
    RunKeepsNames(registered + [scored]);
    RunSnoc(EMPTY, before, Register(a, capabilities));
    RunSnoc(EMPTY, registered, scored);
    var s := Run(EMPTY, registered + [scored]);
    assert EntryFits(s, a);
    FoundIff(s, q, a);
    if AsksFor(q, capabilities) {
      AsksForNames(q, capabilities);
      if i :| 0 <= i < |q.capabilities| && q.capabilities[i] != "" {
        assert q.capabilities[i] in Requested(q.capabilities);
      }
    }
  }

  /** After an update of a live agent the queries that find it are those for its new status and
      capabilities, and of these the ones that name a capability only if the new status is active. */
  lemma UpdatedIsFound(before: seq<Op>, a: AgentId, capabilities: Option<seq<Item>>, status: Option<AgentStatus>,
                       q: Query)
    requires Live(Run(EMPTY, before), a)
    ensures var was, s := Run(EMPTY, before), Run(EMPTY, before + [Update(a, capabilities, status)]);
      var items := if capabilities.Some? then capabilities.value else was.agents[a].capabilities;
      var current := if status.Some? then status.value else was.agents[a].status;
      && (a in Found(s, q)
          <==> q.status == current && AsksFor(q, items) && q.other(a)
               && (q.minTrust.Some? ==> a in was.trust && was.trust[a] >= q.minTrust.value)
               && ((exists i :: 0 <= i < |q.capabilities| && q.capabilities[i] != "") ==> current == Active))
  {
    RunKeepsNames(before);
    RunKeepsNames(before + [Update(a, capabilities, status)]);
    RunSnoc(EMPTY, before, Update(a, capabilities, status));
    var s := Run(EMPTY, before + [Update(a, capabilities, status)]);
    assert Live(s, a) && EntryFits(s, a);
    FoundIff(s, q, a);
    if AsksFor(q, s.agents[a].capabilities) {
      AsksForNames(q, s.agents[a].capabilities);
      if i :| 0 <= i < |q.capabilities| && q.capabilities[i] != "" {
        assert q.capabilities[i] in Requested(q.capabilities);
      }
    }
  }

  /** The row of a deleted agent stays as it is. */
  lemma {:induction false} DeletedStays(s: State, ops: seq<Op>, a: AgentId)
    requires a in s.agents && s.agents[a].deleted && s.agents[a].status == Deregistered
    ensures a in Run(s, ops).agents && Run(s, ops).agents[a] == s.agents[a]
    decreases |ops|
  {
    if ops != [] {
      DeletedStays(s, ops[..|ops| - 1], a);
    }
  }

  /** A deregistered agent is never found again, whatever follows. */
  lemma DeregisteredIsGone(before: seq<Op>, a: AgentId, later: seq<Op>, q: Query)
    requires a in Run(EMPTY, before).agents
    ensures var s := Run(EMPTY, before + [Deregister(a)] + later);
      a in s.agents && s.agents[a].deleted && s.agents[a].status == Deregistered && a !in Found(s, q)
  {
    RunSnoc(EMPTY, before, Deregister(a));
    RunConcat(EMPTY, before + [Deregister(a)], later);
    DeletedStays(Run(EMPTY, before + [Deregister(a)]), later, a);
  }

  /* ---------- heartbeats and sweeps ---------- */

  /** An operation that leaves an agent's own row to the sweeps. */
  predicate LeavesAlone(op: Op, a: AgentId) {
    match op
    case Register(b, _) => b != a
    case Update(b, _, _) => b != a
    case Deregister(b) => b != a
    case Heartbeat(b, _) => b != a
    case MarkInactive(_) => true
    case OpenTrustRecord(_) => true
    case SetTrust(_, _) => true
  }

  predicate LeftAlone(ops: seq<Op>, a: AgentId) {
    forall i :: 0 <= i < |ops| ==> LeavesAlone(ops[i], a)
  }

  /** A sweep whose threshold is after an instant. */
  predicate SweptAfter(ops: seq<Op>, seen: int) {
    exists i :: 0 <= i < |ops| && ops[i].MarkInactive? && seen < ops[i].threshold
  }

  lemma SweptSnoc(ops: seq<Op>, op: Op, seen: int)
    ensures SweptAfter(ops + [op], seen) <==> SweptAfter(ops, seen) || (op.MarkInactive? && seen < op.threshold)
  {
    var all := ops + [op];
    assert forall i :: 0 <= i < |ops| ==> all[i] == ops[i];
    if op.MarkInactive? && seen < op.threshold {
      assert all[|ops|] == op;
    }
  }

  /** What sweeps do to an agent that is otherwise left alone: it becomes inactive if and only if it is
      live and active, has been seen, and some sweep's threshold is after that; nothing else changes. */
  lemma {:induction false} LeftToSweeps(s: State, ops: seq<Op>, a: AgentId)
    requires a in s.agents && LeftAlone(ops, a)
    ensures var row, s' := s.agents[a], Run(s, ops);
      && a in s'.agents
      && s'.agents[a] == if !row.deleted && row.status == Active && row.lastSeen.Some?
                            && SweptAfter(ops, row.lastSeen.value)
                         then row.(status := Inactive) else row
    decreases |ops|
  {
    if ops != [] {
      var init, op := ops[..|ops| - 1], ops[|ops| - 1];
      LeftToSweeps(s, init, a);
      assert ops == init + [op];
      if s.agents[a].lastSeen.Some? {
        SweptSnoc(init, op, s.agents[a].lastSeen.value);
      }
      assert LeavesAlone(op, a);
    }
  }

  lemma {:induction false} RunConcat(s: State, first: seq<Op>, second: seq<Op>)
    ensures Run(s, first + second) == Run(Run(s, first), second)
    decreases |second|
  {
    if second == [] {
      assert first + second == first;
    } else {
      var init, op := second[..|second| - 1], second[|second| - 1];
      RunConcat(s, first, init);
      assert first + second == (first + init) + [op] && second == init + [op];
      RunSnoc(s, first + init, op);
    }
  }

  /** Over every run: an agent that sent a heartbeat and is left alone since stays active if and only if
      no sweep since then had a threshold after the heartbeat; otherwise it is inactive. */
  lemma ActiveIffSeenInTime(before: seq<Op>, a: AgentId, now: int, later: seq<Op>)
    requires Live(Run(EMPTY, before), a) && LeftAlone(later, a)
    ensures var s := Run(EMPTY, before + [Heartbeat(a, now)] + later);
      && Live(s, a)
      && s.agents[a].status == (if SweptAfter(later, now) then Inactive else Active)
      && s.agents[a].lastSeen == Some(now)
  {
    RunSnoc(EMPTY, before, Heartbeat(a, now));
    RunConcat(EMPTY, before + [Heartbeat(a, now)], later);
    LeftToSweeps(Run(EMPTY, before + [Heartbeat(a, now)]), later, a);
  }

  /** A registered agent that never sends a heartbeat is never swept: left alone it stays active. */
  lemma NeverSeenStaysActive(before: seq<Op>, a: AgentId, capabilities: seq<Item>, later: seq<Op>)
    requires a !in Run(EMPTY, before).agents && LeftAlone(later, a)
    ensures var s := Run(EMPTY, before + [Register(a, capabilities)] + later);
      a in s.agents && s.agents[a] == AgentRow(Active, false, capabilities, None)
  {
    RunSnoc(EMPTY, before, Register(a, capabilities));
    RunConcat(EMPTY, before + [Register(a, capabilities)], later);
    LeftToSweeps(Run(EMPTY, before + [Register(a, capabilities)]), later, a);
  }

  /* ---------- searches for every status ---------- */

  ghost predicate AllShown(s: State) {
    forall a :: Live(s, a) ==> Shown(s, a)
  }

  lemma AllAgreeIffAllShown(s: State)
    requires NamesIndexed(s)
    ensures (forall status :: SearchesAgree(s, status)) <==> AllShown(s)
  {
    forall status
      ensures SearchesAgree(s, status) <==> StatusShown(s, status)
    {
      AgreeIffShown(s, status);
    }
    if forall status :: SearchesAgree(s, status) {
      forall a | Live(s, a)
        ensures Shown(s, a)
      {
        assert StatusShown(s, s.agents[a].status);
      }
    }
  }

  /** An update that leaves a live agent with names in another status than active. */
  predicate Hides(s: State, op: Op) {
    op.Update? && Live(s, op.agent)
      && var row := Updated(s.agents[op.agent], op.newCapabilities, op.newStatus);
         row.status != Active && NamesOf(row.capabilities) != {}
  }

  lemma StaysShownIff(s: State, op: Op)
    requires NamesIndexed(s) && AllShown(s)
    ensures AllShown(Apply(s, op)) <==> !Hides(s, op)
  {
    var s' := Apply(s, op);
    if Hides(s, op) {
      assert Live(s', op.agent) && !Shown(s', op.agent);
    } else {
      forall a | Live(s', a)
        ensures Shown(s', a)
      {
        if a in s.agents {
          assert Live(s, a) && EntryFits(s, a) && Shown(s, a);
        }
      }
    }
  }

  ghost predicate AllRightAllAlong(ops: seq<Op>) {
    forall i :: 0 <= i <= |ops| ==> forall status :: SearchesAgree(Run(EMPTY, ops[..i]), status)
  }

  ghost predicate NeverHides(ops: seq<Op>) {
    forall i :: 0 <= i < |ops| ==> !Hides(Run(EMPTY, ops[..i]), ops[i])
  }

  lemma ShownNextIff(ops: seq<Op>, i: nat)
    requires i < |ops| && AllShown(Run(EMPTY, ops[..i]))
    ensures AllShown(Run(EMPTY, ops[..i + 1])) <==> !Hides(Run(EMPTY, ops[..i]), ops[i])
  {
    assert ops[..i + 1] == ops[..i] + [ops[i]];
    RunSnoc(EMPTY, ops[..i], ops[i]);
    RunKeepsNames(ops[..i]);
    StaysShownIff(Run(EMPTY, ops[..i]), ops[i]);
  }

  lemma {:induction false} ShownAt(ops: seq<Op>, i: nat)
    requires NeverHides(ops) && i <= |ops|
    ensures AllShown(Run(EMPTY, ops[..i]))
  {
    if i == 0 {
      assert ops[..i] == [];
    } else {
      ShownAt(ops, i - 1);
      ShownNextIff(ops, i - 1);
    }
  }

  lemma ShownAllAlongIff(ops: seq<Op>)
    ensures (forall i :: 0 <= i <= |ops| ==> AllShown(Run(EMPTY, ops[..i]))) <==> NeverHides(ops)
  {
    if NeverHides(ops) {
      forall i | 0 <= i <= |ops|
        ensures AllShown(Run(EMPTY, ops[..i]))
      {
        ShownAt(ops, i);
      }
    }
    if forall i :: 0 <= i <= |ops| ==> AllShown(Run(EMPTY, ops[..i])) {
      forall i | 0 <= i < |ops|
        ensures !Hides(Run(EMPTY, ops[..i]), ops[i])
      {
        ShownNextIff(ops, i);
      }
    }
  }

  /** For every status: all searches are right all along a run if and only if no update of the run leaves
      a live agent with names in another status than active. */
  lemma AllTransparentIff(ops: seq<Op>)
    ensures AllRightAllAlong(ops) <==> NeverHides(ops)
  {
    forall i | 0 <= i <= |ops|
      ensures (forall status :: SearchesAgree(Run(EMPTY, ops[..i]), status)) <==> AllShown(Run(EMPTY, ops[..i]))
    {
      RunKeepsNames(ops[..i]);
      AllAgreeIffAllShown(Run(EMPTY, ops[..i]));
    }
    ShownAllAlongIff(ops);
  }

  lemma RunOfFour(o1: Op, o2: Op, o3: Op, o4: Op)
    ensures Run(EMPTY, [o1, o2, o3, o4]) == Apply(Apply(Apply(Apply(EMPTY, o1), o2), o3), o4)
  {
    RunSnoc(EMPTY, [], o1);
    RunSnoc(EMPTY, [o1], o2);
    RunSnoc(EMPTY, [o1, o2], o3);
    RunSnoc(EMPTY, [o1, o2, o3], o4);
    assert [] + [o1] == [o1] && [o1] + [o2] == [o1, o2] && [o1, o2] + [o3] == [o1, o2, o3];
    assert [o1, o2, o3] + [o4] == [o1, o2, o3, o4];
  }

  /** The states of the run below: registered and alive, inactive, updated while inactive. */
  lemma UpdatedWhileInactive(caps: seq<Item>)
    requires NamesOf(caps) != {}
    ensures var s := Run(EMPTY, [Register(1, caps), Heartbeat(1, 0), MarkInactive(100), Update(1, Some(caps), None)]);
      && 1 in s.agents && s.agents[1] == AgentRow(Inactive, false, caps, Some(0))
      && 1 in s.directory && !s.directory[1].visible
  {
    var o1, o2, o3, o4 := Register(1, caps), Heartbeat(1, 0), MarkInactive(100), Update(1, Some(caps), None);
    RunOfFour(o1, o2, o3, o4);
    var alive := Apply(Apply(EMPTY, o1), o2);
    assert 1 in alive.agents && alive.agents[1] == AgentRow(Active, false, caps, Some(0));
    var inactive := Apply(alive, o3);
    assert 1 in inactive.agents && inactive.agents[1] == AgentRow(Inactive, false, caps, Some(0));
    UpdateHides(inactive, 1, caps);
  }

  lemma UpdateHides(s: State, a: AgentId, caps: seq<Item>)
    requires NamesOf(caps) != {} && a in s.agents && !s.agents[a].deleted && s.agents[a].status == Inactive
    ensures var s' := Apply(s, Update(a, Some(caps), None));
      && a in s'.agents && s'.agents[a] == s.agents[a].(capabilities := caps)
      && a in s'.directory && !s'.directory[a].visible
  {
  }

  /** A run after which a search misses an inactive agent: it is updated while inactive. */
  lemma UpdateCanLoseAnAgent(name: string)
    requires name != ""
    ensures var caps := [Record(Some(name))];
      var s := Run(EMPTY, [Register(1, caps), Heartbeat(1, 0), MarkInactive(100), Update(1, Some(caps), None)]);
      var q := Query([name], None, Inactive, _ => true);
      1 in Matching(s, q) && 1 !in Found(s, q)
  {
    var caps := [Record(Some(name))];
    assert caps[0] in caps && name in NamesOf(caps);
    UpdatedWhileInactive(caps);
    assert name in Requested([name]);
  }

  /** A run after which a search misses an active agent: it goes inactive, is updated while
      inactive, and comes back by a heartbeat. */
  lemma HeartbeatCanLoseAnAgent(name: string)
    requires name != ""
    ensures var caps := [Record(Some(name))];
      var s := Run(EMPTY, [Register(1, caps), Heartbeat(1, 0), MarkInactive(100), Update(1, Some(caps), None)]
                          + [Heartbeat(1, 200)]);
      var q := Query([name], None, Active, _ => true);
      1 in Matching(s, q) && 1 !in Found(s, q)
  {
    var caps := [Record(Some(name))];
    assert caps[0] in caps && name in NamesOf(caps);
    UpdatedWhileInactive(caps);
    RunSnoc(EMPTY, [Register(1, caps), Heartbeat(1, 0), MarkInactive(100), Update(1, Some(caps), None)],
        Heartbeat(1, 200));
    assert name in Requested([name]);
  }
}
