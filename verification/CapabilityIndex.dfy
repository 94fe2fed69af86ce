/**
 The Redis capability index: a reverse set of names per agent and a ranked set of agents
 per name.  It refines a plain directory from agents to names, score and visibility.
 */
module CapabilityIndex {
  import opened Wrappers

  type AgentId = nat

  /** An element of a capability list; only records with a text name are indexed. */
  datatype Item = NotARecord | Record(name: Option<string>)

  function NamesOf(capabilities: seq<Item>): set<string> {
    set c | c in capabilities && c.Record? && c.name.Some? && c.name.value != "" :: c.name.value
  }

  datatype Entry = Entry(names: set<string>, score: real, visible: bool)

  type Directory = map<AgentId, Entry>

  /* ---------- the plain directory ---------- */

  function Synced(d: Directory, agent: AgentId, names: set<string>, score: real, active: bool): Directory {
    if names == {} then d - {agent} else d[agent := Entry(names, score, active)]
  }

  function Removed(d: Directory, agent: AgentId): Directory {
    d - {agent}
  }

  /** A score update shows an agent again even if it was synced as inactive. */
  function Rescored(d: Directory, agent: AgentId, score: real): Directory {
    if agent in d then d[agent := Entry(d[agent].names, score, true)] else d
  }

  function Scan(d: Directory, names: set<string>, minimum: Option<real>): set<AgentId> {
    set a | a in d && d[a].visible && names <= d[a].names && (minimum.Some? ==> d[a].score >= minimum.value)
  }

  /** The names a search asks the index for: empty ones are skipped. */
  function Requested(capabilities: seq<string>): set<string> {
    set c | c in capabilities && c != ""
  }

  datatype IndexOp =
    | Sync(agent: AgentId, capabilities: seq<Item>, score: real, active: bool)
    | UpdateScore(agent: AgentId, score: real)
    | Remove(agent: AgentId)

  function ApplyOp(d: Directory, op: IndexOp): Directory {
    match op
    case Sync(a, capabilities, score, active) => Synced(d, a, NamesOf(capabilities), score, active)
    case UpdateScore(a, score) => Rescored(d, a, score)
    case Remove(a) => Removed(d, a)
  }

  function ApplyOps(d: Directory, ops: seq<IndexOp>): Directory {
    if ops == [] then d else ApplyOp(ApplyOps(d, ops[..|ops| - 1]), ops[|ops| - 1])
  }

  /* ---------- the index ---------- */

  type Ranking = map<AgentId, real>

  function RankingOf(ranked: map<string, Ranking>, name: string): Ranking {
    if name in ranked then ranked[name] else map[]
  }

  ghost predicate ReverseRefines(agentNames: map<AgentId, set<string>>, d: Directory) {
    agentNames.Keys == d.Keys && forall a :: a in d ==> agentNames[a] == d[a].names && d[a].names != {}
  }

  /** The agents ranked under `n`, with their scores, are those the directory shows under `n`. */
  ghost predicate ForwardRefines(ranked: map<string, Ranking>, d: Directory) {
    forall n, a ::
      && (a in RankingOf(ranked, n) <==> a in d && d[a].visible && n in d[a].names)
      && (a in RankingOf(ranked, n) ==> RankingOf(ranked, n)[a] == d[a].score)
  }

  /** What a sync does to the rankings of all names. */
  ghost predicate SyncedRankings(before: map<string, Ranking>, after: map<string, Ranking>, agent: AgentId,
                                 previous: set<string>, names: set<string>, score: real, active: bool) {
    forall n {:trigger RankingOf(after, n)} ::
      RankingOf(after, n) == (if n in names && active then RankingOf(before, n)[agent := score]
                              else if n in names || n in previous then RankingOf(before, n) - {agent}
                              else RankingOf(before, n))
  }

  lemma SyncRefines(before: map<string, Ranking>, after: map<string, Ranking>, d: Directory, agent: AgentId,
                    previous: set<string>, names: set<string>, score: real, active: bool)
    requires ForwardRefines(before, d)
    requires previous == if agent in d then d[agent].names else {}
    requires SyncedRankings(before, after, agent, previous, names, score, active)
    ensures ForwardRefines(after, Synced(d, agent, names, score, active))
  {
    var d' := Synced(d, agent, names, score, active);
    forall n, a
      ensures a in RankingOf(after, n) <==> a in d' && d'[a].visible && n in d'[a].names
      ensures a in RankingOf(after, n) ==> RankingOf(after, n)[a] == d'[a].score
    {
      assert a in RankingOf(before, n) <==> a in d && d[a].visible && n in d[a].names;
      if a != agent {
        assert a in d' <==> a in d;
      }
    }
  }

  class RedisIndex {
    /** Per agent its indexed names; an absent key is the empty set. */
    var agentNames: map<AgentId, set<string>>
    /** Per name the agents offering it with their score; an absent key is empty. */
    var ranked: map<string, Ranking>
    ghost var directory: Directory

    /** Forward and reverse sets are the directory seen from names and from agents. */
    ghost predicate Valid()
      reads this
    {
      ReverseRefines(agentNames, directory) && ForwardRefines(ranked, directory)
    }

    constructor ()
      ensures Valid() && directory == map[]
    {
      agentNames, ranked, directory := map[], map[], map[];
    }

    function SMembers(agent: AgentId): set<string>
      reads this
    {
      if agent in agentNames then agentNames[agent] else {}
    }

    method ZAdd(name: string, agent: AgentId, score: real)
      modifies this`ranked
      ensures forall n :: RankingOf(ranked, n) == if n == name then RankingOf(old(ranked), n)[agent := score]
           else RankingOf(old(ranked), n)
    {
      ranked := ranked[name := RankingOf(ranked, name)[agent := score]];
    }

    method ZRem(name: string, agent: AgentId)
      modifies this`ranked
      ensures forall n :: RankingOf(ranked, n) == if n == name then RankingOf(old(ranked), n) - {agent}
           else RankingOf(old(ranked), n)
    {
      ranked := ranked[name := RankingOf(ranked, name) - {agent}];
    }

    /** Takes the agent out of the rankings of `names`. */
    method RemoveFromAll(names: set<string>, agent: AgentId)
      modifies this`ranked
      ensures forall n :: RankingOf(ranked, n) == if n in names then RankingOf(old(ranked), n) - {agent}
           else RankingOf(old(ranked), n)
    {
      var rest := names;
      while rest != {}
        invariant rest <= names
        invariant forall n :: RankingOf(ranked, n) == if n in names - rest then RankingOf(old(ranked), n) - {agent}
            else RankingOf(old(ranked), n)
        decreases rest
      {
        var name :| name in rest;
        ZRem(name, agent);
        rest := rest - {name};
      }
    }

    /** Ranks the agent with one score under all of `names`. */
    method AddToAll(names: set<string>, agent: AgentId, score: real)
      modifies this`ranked
      ensures forall n :: RankingOf(ranked, n) == if n in names then RankingOf(old(ranked), n)[agent := score]
           else RankingOf(old(ranked), n)
    {
      var rest := names;
      while rest != {}
        invariant rest <= names
        invariant forall n :: RankingOf(ranked, n) == if n in names - rest
            then RankingOf(old(ranked), n)[agent := score] else RankingOf(old(ranked), n)
        decreases rest
      {
        var name :| name in rest;
        ZAdd(name, agent, score);
        rest := rest - {name};
      }
    }

    /** Takes the agent out of the rankings it leaves, and ranks or hides it in the others. */
    method SyncRankings(agent: AgentId, previous: set<string>, names: set<string>, score: real, active: bool)
      modifies this`ranked
      ensures SyncedRankings(old(ranked), ranked, agent, previous, names, score, active)
    {
      RemoveFromAll(previous - names, agent);
      if active {
        AddToAll(names, agent, score);
      } else {
        RemoveFromAll(names, agent);
      }
    }

    method SyncAgent(agent: AgentId, capabilities: seq<Item>, score: real, active: bool)
      requires Valid()
      modifies this
      ensures Valid() && directory == Synced(old(directory), agent, NamesOf(capabilities), score, active)
    {
      var names := NamesOf(capabilities);
      var previous := SMembers(agent);
      SyncRankings(agent, previous, names, score, active);
      agentNames := agentNames - {agent};
      if names != {} {
        agentNames := agentNames[agent := names];
      }
      SyncRefines(old(ranked), ranked, directory, agent, previous, names, score, active);
      directory := Synced(directory, agent, names, score, active);
    }

    method RemoveAgent(agent: AgentId)
      requires Valid()
      modifies this
      ensures Valid() && directory == Removed(old(directory), agent)
    {
      RemoveFromAll(SMembers(agent), agent);
      agentNames := agentNames - {agent};
      directory := Removed(directory, agent);
    }

    method UpdateAgentScore(agent: AgentId, score: real)
      requires Valid()
      modifies this
      ensures Valid() && directory == Rescored(old(directory), agent, score)
    {
      AddToAll(SMembers(agent), agent, score);
      directory := Rescored(directory, agent, score);
    }

    /** The agents indexed under every nonempty requested name with at least the minimum score;
        nothing when no name is requested. */
    method CandidateIds(capabilities: seq<string>, minimum: Option<real>) returns (ids: Option<set<AgentId>>)
      requires Valid()
      ensures ids.None? <==> Requested(capabilities) == {}
      ensures ids.Some? ==> ids.value == Scan(directory, Requested(capabilities), minimum)
    {
      ids := None;
      for i := 0 to |capabilities|
        invariant ids.None? <==> Requested(capabilities[..i]) == {}
        invariant ids.Some? ==> ids.value == Scan(directory, Requested(capabilities[..i]), minimum)
      {
        var name := capabilities[i];
        assert capabilities[..i + 1] == capabilities[..i] + [name];
        if name != "" {
          var ranking := RankingOf(ranked, name);
          var values := set a | a in ranking && (minimum.Some? ==> ranking[a] >= minimum.value);
          assert values == Scan(directory, {name}, minimum);
          assert Requested(capabilities[..i + 1]) == Requested(capabilities[..i]) + {name};
          assert name in Requested(capabilities[..i + 1]);
          ids := if ids.None? then Some(values) else Some(ids.value * values);
        } else {
          assert Requested(capabilities[..i + 1]) == Requested(capabilities[..i]);
        }
      }
      assert capabilities[..|capabilities|] == capabilities;
    }

    /** Every sequence of index writes acts on the directory operation by operation. */
    method Perform(ops: seq<IndexOp>)
      requires Valid()
      modifies this
      ensures Valid() && directory == ApplyOps(old(directory), ops)
    {
      for i := 0 to |ops|
        invariant Valid() && directory == ApplyOps(old(directory), ops[..i])
      {
        assert ops[..i + 1][..i] == ops[..i];
        match ops[i] {
          case Sync(a, capabilities, score, active) => SyncAgent(a, capabilities, score, active);
          case UpdateScore(a, score) => UpdateAgentScore(a, score);
          case Remove(a) => RemoveAgent(a);
        }
      }
      assert ops[..|ops|] == ops;
    }
  }

  /** Forward sets stay inside the reverse index, and an agent has one score in all its sets. */
  lemma ForwardInsideReverse(index: RedisIndex, a: AgentId, n1: string, n2: string)
    requires index.Valid()
    ensures a in RankingOf(index.ranked, n1) ==> n1 in index.SMembers(a)
    ensures a in RankingOf(index.ranked, n1) && a in RankingOf(index.ranked, n2) ==>
              RankingOf(index.ranked, n1)[a] == RankingOf(index.ranked, n2)[a]
    ensures a in RankingOf(index.ranked, n1) && n2 in index.SMembers(a) ==> a in RankingOf(index.ranked, n2)
  {
  }

  /* ---------- what the directory remembers ---------- */

  predicate Concerns(op: IndexOp, a: AgentId) {
    op.agent == a
  }

  /** Writes for other agents do not matter. */
  lemma {:induction false} OtherAgentsDoNotMatter(d: Directory, ops: seq<IndexOp>, a: AgentId)
    requires forall op :: op in ops ==> !Concerns(op, a)
    ensures a in ApplyOps(d, ops) <==> a in d
    ensures a in d ==> ApplyOps(d, ops)[a] == d[a]
  {
    if ops != [] {
      OtherAgentsDoNotMatter(d, ops[..|ops| - 1], a);
      assert ops[|ops| - 1] in ops;
    }
  }

  lemma {:induction false} ApplyOpsConcat(d: Directory, first: seq<IndexOp>, second: seq<IndexOp>)
    ensures ApplyOps(d, first + second) == ApplyOps(ApplyOps(d, first), second)
  {
    if second == [] {
      assert first + second == first;
    } else {
      var last := |second| - 1;
      ApplyOpsConcat(d, first, second[..last]);
      assert (first + second)[..|first + second| - 1] == first + second[..last];
    }
  }

  /** What a sync leaves behind for its agent is independent of everything before it: the
      directory after any history is decided by the writes since the agent's last sync. */
  lemma LastSyncDecides(history: seq<IndexOp>, sync: IndexOp, later: seq<IndexOp>)
    requires sync.Sync? && forall op :: op in later ==> !Concerns(op, sync.agent)
    ensures var d := ApplyOps(map[], history + [sync] + later);
      && (sync.agent in d <==> NamesOf(sync.capabilities) != {})
      && (sync.agent in d ==> d[sync.agent] == Entry(NamesOf(sync.capabilities), sync.score, sync.active))
  {
    ApplyOpsConcat(map[], history + [sync], later);
    assert (history + [sync])[..|history|] == history;
    OtherAgentsDoNotMatter(ApplyOps(map[], history + [sync]), later, sync.agent);
  }

  /* ---------- what a search finds after any history ---------- */

  /** The names an agent is indexed under: the non-empty text names of its records. */
  lemma IndexedNameIff(capabilities: seq<Item>, name: string)
    ensures name in NamesOf(capabilities) <==> |name| > 0 && Record(Some(name)) in capabilities
  {
    if name in NamesOf(capabilities) {
      var c :| c in capabilities && c.Record? && c.name.Some? && c.name.value == name;
      assert c == Record(Some(name));
    }
  }

  /** No sync and no removal of the agent, only updates of its score. */
  predicate OnlyRescores(ops: seq<IndexOp>, a: AgentId) {
    forall i :: 0 <= i < |ops| && Concerns(ops[i], a) ==> ops[i].UpdateScore?
  }

  predicate Rescores(ops: seq<IndexOp>, a: AgentId) {
    exists i :: 0 <= i < |ops| && ops[i].UpdateScore? && ops[i].agent == a
  }

  /** The score after the updates of an agent. */
  function LatestScore(ops: seq<IndexOp>, a: AgentId, score: real): real {
    if ops == [] then score
    else
      var op := ops[|ops| - 1];
      if op.UpdateScore? && op.agent == a then op.score else LatestScore(ops[..|ops| - 1], a, score)
  }

  lemma {:induction false} EntryAfterRescores(d: Directory, ops: seq<IndexOp>, a: AgentId)
    requires a in d && OnlyRescores(ops, a)
    ensures var d' := ApplyOps(d, ops);
      && a in d' && d'[a].names == d[a].names && d'[a].score == LatestScore(ops, a, d[a].score)
      && (d'[a].visible <==> d[a].visible || Rescores(ops, a))
    decreases |ops|
  {
    if ops != [] {
      var init, op := ops[..|ops| - 1], ops[|ops| - 1];
      EntryAfterRescores(d, init, a);
      assert forall i :: 0 <= i < |init| ==> init[i] == ops[i];
      assert Rescores(ops, a) <==> Rescores(init, a) || (op.UpdateScore? && op.agent == a);
      assert Concerns(op, a) ==> op.UpdateScore?;
    }
  }

  lemma {:induction false} AbsentStaysAbsent(d: Directory, ops: seq<IndexOp>, a: AgentId)
    requires a !in d && forall i :: 0 <= i < |ops| && Concerns(ops[i], a) ==> !ops[i].Sync?
    ensures a !in ApplyOps(d, ops)
    decreases |ops|
  {
    if ops != [] {
      var init, op := ops[..|ops| - 1], ops[|ops| - 1];
      assert forall i :: 0 <= i < |init| ==> init[i] == ops[i];
      AbsentStaysAbsent(d, init, a);
      assert Concerns(op, a) ==> !op.Sync?;
    }
  }

  /** After any history, a sync of an agent and then only updates of its score: a search finds the agent if
      and only if its capabilities have all the names asked for, it was synced as active or rescored
      since, and its latest score reaches the minimum. */
  lemma CandidateIff(history: seq<IndexOp>, sync: IndexOp, later: seq<IndexOp>, names: set<string>,
                     minimum: Option<real>)
    requires sync.Sync? && OnlyRescores(later, sync.agent)
    requires NamesOf(sync.capabilities) != {}
    ensures sync.agent in Scan(ApplyOps(map[], history + [sync] + later), names, minimum)
       <==> && (forall n :: n in names ==> |n| > 0 && Record(Some(n)) in sync.capabilities)
            && (sync.active || Rescores(later, sync.agent))
            && (minimum.Some? ==> LatestScore(later, sync.agent, sync.score) >= minimum.value)
  {
    var before := ApplyOps(map[], history + [sync]);
    assert (history + [sync])[..|history|] == history;
    ApplyOpsConcat(map[], history + [sync], later);
    EntryAfterRescores(before, later, sync.agent);
    forall n
      ensures n in NamesOf(sync.capabilities) <==> |n| > 0 && Record(Some(n)) in sync.capabilities
    {
      IndexedNameIff(sync.capabilities, n);
    }
  }

  /** After a removal, or a sync without names, no search finds the agent until its next sync. */
  lemma GoneUntilSynced(history: seq<IndexOp>, op: IndexOp, later: seq<IndexOp>, names: set<string>,
                        minimum: Option<real>)
    requires op.Remove? || (op.Sync? && NamesOf(op.capabilities) == {})
    requires forall i :: 0 <= i < |later| && Concerns(later[i], op.agent) ==> !later[i].Sync?
    ensures op.agent !in Scan(ApplyOps(map[], history + [op] + later), names, minimum)
  {
    var before := ApplyOps(map[], history + [op]);
    assert (history + [op])[..|history|] == history;
    ApplyOpsConcat(map[], history + [op], later);
    AbsentStaysAbsent(before, later, op.agent);
  }
}
