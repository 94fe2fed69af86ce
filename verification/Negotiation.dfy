/**
 Negotiations, the contracts that accepted ones create, and the tasks bound to contracts.
 Each call is one transaction at one instant: a call that raises leaves the tables alone.
 */
module Negotiation {
  import opened Wrappers

  type AgentId = nat
  type NegotiationId = nat
  type ContractId = nat
  type TaskId = nat
  type Token = nat
  type Fields = map<string, string>

  const MAX_ROUNDS := 3
  const MIN_EXTENSION := 60
  const DEFAULT_TTL := 300

  datatype Status = Proposed | Countered | Accepted | Declined | Expired

  /** The decision of a response as received; only the first three are acted upon. */
  datatype Decision = Counter | Accept | Decline | Expire | Unknown(text: string)

  datatype Response = Response(decision: Decision, fields: Fields)

  datatype Proposal = Proposal(capability: string, ttl: Option<int>, fields: Fields)

  datatype Role = Requester | Target

  datatype RoundDecision = RProposed | RCountered | RAccepted | RDeclined

  datatype Round = Round(number: nat, actor: AgentId, role: Role, decision: RoundDecision, fields: Fields)

  datatype Row = Row(
    requester: AgentId,
    target: AgentId,
    capability: string,
    status: Status,
    proposal: Proposal,
    response: Option<Response>,
    token: Token,
    roundCount: nat,
    expiresAt: int,
    createdAt: int)

  datatype Contract = Contract(
    negotiation: NegotiationId,
    requester: AgentId,
    target: AgentId,
    capability: string,
    terms: Fields,
    token: Token,
    active: bool,
    acceptedAt: int)

  datatype Task = Task(sender: AgentId, recipient: AgentId, capability: string, contract: Option<ContractId>,
      negotiation: Option<NegotiationId>)

  /** The tables; history rows are grouped by negotiation in order of insertion. */
  datatype Tables = Tables(
    negotiations: map<NegotiationId, Row>,
    rounds: map<NegotiationId, seq<Round>>,
    contracts: map<ContractId, Contract>,
    tasks: map<TaskId, Task>)

  const EMPTY := Tables(map[], map[], map[], map[])

  datatype Error =
    | InvalidAgents
    | NotFound
    | NotParticipant
    | InvalidTransition
    | RoundsExceeded
    | InvalidDecision
    | IntegrityViolation
    | DuplicateMessage
    | TtlExpired
    | RecipientUnavailable
    | SenderUnknown
    | ContractUnavailable
    | ContractMismatch

  predicate Open(s: Status) {
    s == Proposed || s == Countered
  }

  /** The transition table: an open negotiation admits every known decision, a closed one none. */
  predicate ValidTransition(s: Status, d: Decision) {
    Open(s) && !d.Unknown?
  }

  function Max(a: int, b: int): int {
    if a >= b then a else b
  }

  function Ttl(p: Proposal): int {
    if p.ttl.Some? then p.ttl.value else DEFAULT_TTL
  }

  function RoundsOf(rounds: map<NegotiationId, seq<Round>>, id: NegotiationId): seq<Round> {
    if id in rounds then rounds[id] else []
  }

  /* ---------- transactions ---------- */

  function ExpireRow(row: Row, now: int): Row {
    if Open(row.status) && row.expiresAt < now then row.(status := Expired) else row
  }

  function ExpireDue(negotiations: map<NegotiationId, Row>, now: int): map<NegotiationId, Row> {
    map n | n in negotiations :: ExpireRow(negotiations[n], now)
  }

  predicate TokenUsed(negotiations: map<NegotiationId, Row>, token: Token, except: NegotiationId) {
    exists n :: n in negotiations && n != except && negotiations[n].token == token
  }

  function NewRow(requester: AgentId, target: AgentId, proposal: Proposal, now: int, token: Token): Row {
    Row(requester, target, proposal.capability, Proposed, proposal, None, token, 1, now + Ttl(proposal), now)
  }

  function CreateSpec(t: Tables, requester: Option<AgentId>, target: Option<AgentId>, proposal: Proposal, now: int,
                      id: NegotiationId, token: Token): Result<Tables, Error> {
    if requester.None? || target.None? || requester == target then Err(InvalidAgents)
    else if id in t.negotiations || TokenUsed(t.negotiations, token, id) then Err(IntegrityViolation)
    else Ok(t.(negotiations := t.negotiations[id := NewRow(requester.value, target.value, proposal, now, token)],
               rounds := t.rounds[id := [Round(1, requester.value, Requester, RProposed, proposal.fields)]]))
  }

  /** The row after an admitted decision, or the error that decision raises. */
  function Decide(row: Row, response: Response, now: int, token: Token): Result<Row, Error> {
    match response.decision
    case Accept => Ok(row.(status := Accepted, token := token, response := Some(response)))
    case Counter =>
      if row.roundCount + 1 > MAX_ROUNDS then Err(RoundsExceeded)
      else Ok(row.(status := Countered, roundCount := row.roundCount + 1,
                   expiresAt := now + Max(MIN_EXTENSION, Ttl(row.proposal)), response := Some(response)))
    case Decline => Ok(row.(status := Declined, response := Some(response)))
    case Expire => Err(InvalidDecision)
    case Unknown(_) => Err(InvalidDecision)
  }

  function Recorded(d: Decision): RoundDecision
    requires d == Counter || d == Accept || d == Decline
  {
    match d
    case Counter => RCountered
    case Accept => RAccepted
    case Decline => RDeclined
  }

  function NewContract(id: NegotiationId, row: Row, response: Response, now: int, token: Token): Contract {
    Contract(id, row.requester, row.target, row.capability, row.proposal.fields + response.fields, token, true, now)
  }

  predicate ContractClash(t: Tables, id: NegotiationId, contractId: ContractId) {
    contractId in t.contracts || exists c :: c in t.contracts && t.contracts[c].negotiation == id
  }

  function RespondSpec(t: Tables, id: NegotiationId, response: Response, actor: Option<AgentId>, now: int,
                       token: Token, contractId: ContractId): Result<Tables, Error> {
    var rows := ExpireDue(t.negotiations, now);
    if id !in rows then Err(NotFound)
    else
      var row := rows[id];
      if actor.None? || (actor.value != row.requester && actor.value != row.target) then Err(NotParticipant)
      else if !ValidTransition(row.status, response.decision) then Err(InvalidTransition)
      else
        match Decide(row, response, now, token)
        case Err(e) => Err(e)
        case Ok(row') =>
          if response.decision == Accept && (ContractClash(t, id, contractId) || TokenUsed(rows, token, id))
              then Err(IntegrityViolation)
          else
            var role := if actor.value == row.requester then Requester else Target;
            Ok(t.(negotiations := rows[id := row'],
                  rounds := t.rounds[id := RoundsOf(t.rounds, id)
                      + [Round(row'.roundCount, actor.value, role, Recorded(response.decision), response.fields)]],
                  contracts := if response.decision == Accept
                      then t.contracts[contractId := NewContract(id, row, response, now, token)] else t.contracts))
  }

  /** A message whose sender, recipient and capability are resolved. */
  datatype Envelope = Envelope(message: TaskId, sender: AgentId, recipient: AgentId, capability: string, ttl: int,
      contract: Option<ContractId>)

  function SendSpec(t: Tables, e: Envelope, known: set<AgentId>, active: set<AgentId>): Result<Tables, Error> {
    if e.message in t.tasks then Err(DuplicateMessage)
    else if e.ttl <= 0 then Err(TtlExpired)
    else if e.recipient !in active then Err(RecipientUnavailable)
    else if e.sender !in known then Err(SenderUnknown)
    else if e.contract.None? then
      Ok(t.(tasks := t.tasks[e.message := Task(e.sender, e.recipient, e.capability, None, None)]))
    else if e.contract.value !in t.contracts || !t.contracts[e.contract.value].active then Err(ContractUnavailable)
    else
      var c := t.contracts[e.contract.value];
      if c.requester != e.sender || c.target != e.recipient || c.capability != e.capability then Err(ContractMismatch)
      else Ok(t.(tasks := t.tasks[e.message := Task(e.sender, e.recipient, e.capability, e.contract,
          Some(c.negotiation))]))
  }

  /* ---------- the services ---------- */

  class Services {
    var negotiations: map<NegotiationId, Row>
    var rounds: map<NegotiationId, seq<Round>>
    var contracts: map<ContractId, Contract>
    var tasks: map<TaskId, Task>

    function Contents(): Tables
      reads this
    {
      Tables(negotiations, rounds, contracts, tasks)
    }

    constructor ()
      ensures Contents() == EMPTY
    {
      negotiations, rounds, contracts, tasks := map[], map[], map[], map[];
    }

    method CreateProposal(requester: Option<AgentId>, target: Option<AgentId>, proposal: Proposal, now: int,
                          id: NegotiationId, token: Token)
      returns (error: Option<Error>)
      modifies this
      ensures match CreateSpec(old(Contents()), requester, target, proposal, now, id, token)
        case Ok(t) => error.None? && Contents() == t
        case Err(e) => error == Some(e) && Contents() == old(Contents())
    {
      if requester.None? || target.None? || requester == target {
        return Some(InvalidAgents);
      }
      if id in negotiations || TokenUsed(negotiations, token, id) {
        return Some(IntegrityViolation);
      }
      var ttl := if proposal.ttl.Some? then proposal.ttl.value else DEFAULT_TTL;
      negotiations := negotiations[id := Row(requester.value, target.value, proposal.capability, Proposed, proposal,
          None, token, 1, now + ttl, now)];
      rounds := rounds[id := [Round(1, requester.value, Requester, RProposed, proposal.fields)]];
      error := None;
    }

    /** Expires every open negotiation past its deadline, in the session's copy of the rows. */
    method ExpireOpen(now: int) returns (rows: map<NegotiationId, Row>, count: nat)
      ensures rows == ExpireDue(negotiations, now)
      ensures count > 0 <==> rows != negotiations
    {
      rows, count := negotiations, 0;
      var due := set n | n in negotiations && Open(negotiations[n].status) && negotiations[n].expiresAt < now;
      var rest := due;
      while rest != {}
        invariant rest <= due && rows.Keys == negotiations.Keys
        invariant forall n :: n in rows ==> rows[n] == if n in due - rest then negotiations[n].(status := Expired)
            else negotiations[n]
        invariant count > 0 <==> due - rest != {}
        decreases rest
      {
        var n :| n in rest;
        rows := rows[n := rows[n].(status := Expired)];
        count := count + 1;
        rest := rest - {n};
      }
      if due != {} {
        var n :| n in due;
        assert rows[n] != negotiations[n];
      }
    }

    method Respond(id: NegotiationId, response: Response, actor: Option<AgentId>, now: int, token: Token,
                   contractId: ContractId)
      returns (error: Option<Error>)
      modifies this
      ensures match RespondSpec(old(Contents()), id, response, actor, now, token, contractId)
        case Ok(t) => error.None? && Contents() == t
        case Err(e) => error == Some(e) && Contents() == old(Contents())
    {
      var rows, count := ExpireOpen(now);
      if id !in rows {
        return Some(NotFound);
      }
      var row := rows[id];
      if actor.None? || (actor.value != row.requester && actor.value != row.target) {
        return Some(NotParticipant);
      }
      var role := if actor.value == row.requester then Requester else Target;
      if !ValidTransition(row.status, response.decision) {
        return Some(InvalidTransition);
      }
      var roundNumber := if response.decision == Counter then row.roundCount + 1 else row.roundCount;
      var newContracts := contracts;
      match response.decision {
        case Accept =>
          row := row.(status := Accepted, token := token);
          if ContractClash(Contents(), id, contractId) || TokenUsed(rows, token, id) {
            return Some(IntegrityViolation);
          }
          newContracts := contracts[contractId :=
            Contract(id, row.requester, row.target, row.capability, row.proposal.fields + response.fields, row.token,
                true, now)];
        case Counter =>
          row := row.(status := Countered, roundCount := row.roundCount + 1);
          if row.roundCount > MAX_ROUNDS {
            return Some(RoundsExceeded);
          }
          row := row.(expiresAt := now + Max(MIN_EXTENSION, Ttl(row.proposal)));
        case Decline =>
          row := row.(status := Declined);
        case _ =>
          return Some(InvalidDecision);
      }
      row := row.(response := Some(response));
      negotiations := rows[id := row];
      rounds := rounds[id := RoundsOf(rounds, id)
          + [Round(roundNumber, actor.value, role, Recorded(response.decision), response.fields)]];
      contracts := newContracts;
      error := None;
    }

    method SendMessage(e: Envelope, known: set<AgentId>, active: set<AgentId>) returns (error: Option<Error>)
      modifies this`tasks
      ensures match SendSpec(old(Contents()), e, known, active)
        case Ok(t) => error.None? && Contents() == t
        case Err(err) => error == Some(err) && Contents() == old(Contents())
    {
      if e.message in tasks {
        return Some(DuplicateMessage);
      }
      if e.ttl <= 0 {
        return Some(TtlExpired);
      }
      if e.recipient !in active {
        return Some(RecipientUnavailable);
      }
      if e.sender !in known {
        return Some(SenderUnknown);
      }
      var negotiation: Option<NegotiationId> := None;
      if e.contract.Some? {
        if e.contract.value !in contracts || !contracts[e.contract.value].active {
          return Some(ContractUnavailable);
        }
        var c := contracts[e.contract.value];
        if c.requester != e.sender || c.target != e.recipient || c.capability != e.capability {
          return Some(ContractMismatch);
        }
        negotiation := Some(c.negotiation);
      }
      tasks := tasks[e.message := Task(e.sender, e.recipient, e.capability, e.contract, negotiation)];
      error := None;
    }
  }

  /* ---------- runs ---------- */

  datatype Op =
    | Create(requester: Option<AgentId>, target: Option<AgentId>, proposal: Proposal, now: int, id: NegotiationId,
        token: Token)
    | Answer(id: NegotiationId, response: Response, actor: Option<AgentId>, now: int, token: Token,
        contractId: ContractId)
    | Send(envelope: Envelope, known: set<AgentId>, active: set<AgentId>)

  function Attempt(t: Tables, op: Op): Result<Tables, Error> {
    match op
    case Create(requester, target, proposal, now, id, token) =>
      CreateSpec(t, requester, target, proposal, now, id, token)
    case Answer(id, response, actor, now, token, contractId) =>
      RespondSpec(t, id, response, actor, now, token, contractId)
    case Send(e, known, active) => SendSpec(t, e, known, active)
  }

  function Apply(t: Tables, op: Op): Tables {
    match Attempt(t, op)
    case Ok(t') => t'
    case Err(_) => t
  }

  function Run(t: Tables, ops: seq<Op>): Tables {
    if ops == [] then t else Apply(Run(t, ops[..|ops| - 1]), ops[|ops| - 1])
  }

  /* ---------- what every committed negotiation looks like ---------- */

  predicate Decided(s: Status) {
    s == Accepted || s == Declined
  }

  predicate RoleFits(row: Row, r: Round) {
    (r.role == Requester && r.actor == row.requester) || (r.role == Target && r.actor == row.target)
  }

  /** History: proposed by the requester, then counters, then the deciding round if any. */
  ghost predicate HistoryFits(row: Row, h: seq<Round>) {
    && 1 <= row.roundCount <= MAX_ROUNDS
    && |h| == row.roundCount + (if Decided(row.status) then 1 else 0)
    && h[0].decision == RProposed && h[0].role == Requester
    && (forall i :: 1 <= i < row.roundCount ==> h[i].decision == RCountered)
    && (forall i :: 0 <= i < row.roundCount ==> h[i].number == i + 1)
    && (forall i :: 0 <= i < |h| ==> RoleFits(row, h[i]))
    && (row.status == Proposed ==> row.roundCount == 1)
    && (row.status == Countered ==> row.roundCount > 1)
    && (Decided(row.status) ==>
          && h[row.roundCount].number == row.roundCount
          && h[row.roundCount].decision == if row.status == Accepted then RAccepted else RDeclined)
    && h[0].fields == row.proposal.fields
    && (|h| > 1 ==> row.response.Some? && row.response.value.fields == h[|h| - 1].fields)
  }

  /** The latest deadline that `roundCount` rounds allow. */
  function LatestDeadline(row: Row, rounds: int): int {
    row.createdAt + Ttl(row.proposal) + (rounds - 1) * Max(MIN_EXTENSION, Ttl(row.proposal))
  }

  ghost predicate RowInv(t: Tables, n: NegotiationId)
    requires n in t.negotiations
  {
    var row := t.negotiations[n];
    && n in t.rounds && HistoryFits(row, t.rounds[n])
    && row.requester != row.target
    && row.expiresAt <= LatestDeadline(row, row.roundCount)
    && (row.status == Accepted ==> HasContract(t, n))
  }

  ghost predicate HasContract(t: Tables, n: NegotiationId) {
    exists c :: c in t.contracts && t.contracts[c].negotiation == n
  }

  ghost predicate ContractInv(t: Tables, c: ContractId)
    requires c in t.contracts
  {
    var k := t.contracts[c];
    && k.negotiation in t.negotiations
    && var row := t.negotiations[k.negotiation];
    && row.status == Accepted
    && k.requester == row.requester && k.target == row.target && k.capability == row.capability
    && k.token == row.token
    && k.acceptedAt <= row.expiresAt
    && row.response.Some? && k.terms == row.proposal.fields + row.response.value.fields
  }

  ghost predicate TaskInv(t: Tables, m: TaskId)
    requires m in t.tasks
  {
    var task := t.tasks[m];
    match task.contract
    case None => task.negotiation == None
    case Some(c) =>
      && c in t.contracts
      && task.sender == t.contracts[c].requester && task.recipient == t.contracts[c].target
      && task.capability == t.contracts[c].capability
      && task.negotiation == Some(t.contracts[c].negotiation)
  }

  ghost predicate Inv(t: Tables) {
    && (forall n {:trigger RowInv(t, n)} :: n in t.negotiations ==> RowInv(t, n))
    && (forall c {:trigger ContractInv(t, c)} :: c in t.contracts ==> ContractInv(t, c))
    && (forall c, d ::
          c in t.contracts && d in t.contracts && t.contracts[c].negotiation == t.contracts[d].negotiation ==> c == d)
    && (forall m {:trigger TaskInv(t, m)} :: m in t.tasks ==> TaskInv(t, m))
    && (forall n, m ::
          n in t.negotiations && m in t.negotiations && t.negotiations[n].token == t.negotiations[m].token ==> n == m)
  }

  /** A row keeps its invariant while its row, its history and its contract are kept. */
  lemma RowInvKept(t: Tables, t': Tables, n: NegotiationId)
    requires n in t.negotiations && n in t'.negotiations && RowInv(t, n)
    requires t'.negotiations[n] == t.negotiations[n] && RoundsOf(t'.rounds, n) == RoundsOf(t.rounds, n)
          && n in t'.rounds
    requires t'.contracts == t.contracts
    ensures RowInv(t', n)
  {
    if t.negotiations[n].status == Accepted {
      assert HasContract(t, n);
      var c :| c in t.contracts && t.contracts[c].negotiation == n;
      assert t'.contracts[c].negotiation == n;
    }
  }

  lemma ContractInvKept(t: Tables, t': Tables, c: ContractId)
    requires c in t.contracts && ContractInv(t, c) && c in t'.contracts && t'.contracts[c] == t.contracts[c]
    requires t.contracts[c].negotiation in t'.negotiations
    requires t'.negotiations[t.contracts[c].negotiation] == t.negotiations[t.contracts[c].negotiation]
    ensures ContractInv(t', c)
  {
  }

  lemma NewRowInv(t: Tables, id: NegotiationId, requester: AgentId, target: AgentId, proposal: Proposal, now: int,
                  token: Token)
    requires id in t.negotiations && t.negotiations[id] == NewRow(requester, target, proposal, now, token)
    requires requester != target
    requires id in t.rounds && t.rounds[id] == [Round(1, requester, Requester, RProposed, proposal.fields)]
    ensures RowInv(t, id)
  {
  }

  lemma CreatedRows(t: Tables, t': Tables, id: NegotiationId, requester: AgentId, target: AgentId, proposal: Proposal,
                    now: int, token: Token)
    requires Inv(t) && id !in t.negotiations && requester != target
    requires t'.negotiations == t.negotiations[id := NewRow(requester, target, proposal, now, token)]
    requires t'.rounds == t.rounds[id := [Round(1, requester, Requester, RProposed, proposal.fields)]]
    requires t'.contracts == t.contracts
    ensures forall n {:trigger RowInv(t', n)} :: n in t'.negotiations ==> RowInv(t', n)
  {
    forall n | n in t'.negotiations
      ensures RowInv(t', n)
    {
      if n == id {
        NewRowInv(t', id, requester, target, proposal, now, token);
      } else {
        assert RowInv(t, n);
        RowInvKept(t, t', n);
      }
    }
  }

  /** Contracts and tasks keep their invariants while rows are only added. */
  lemma BoundInvsKept(t: Tables, t': Tables)
    requires Inv(t) && t'.contracts == t.contracts
    requires forall n :: n in t.negotiations ==> n in t'.negotiations && t'.negotiations[n] == t.negotiations[n]
    ensures forall c {:trigger ContractInv(t', c)} :: c in t'.contracts ==> ContractInv(t', c)
    ensures forall m :: m in t'.tasks && m in t.tasks && t'.tasks[m] == t.tasks[m] ==> TaskInv(t', m)
  {
    forall c | c in t'.contracts
      ensures ContractInv(t', c)
    {
      assert ContractInv(t, c);
      ContractInvKept(t, t', c);
    }
    forall m | m in t'.tasks && m in t.tasks && t'.tasks[m] == t.tasks[m]
      ensures TaskInv(t', m)
    {
      assert TaskInv(t, m);
    }
  }

  lemma CreateKeepsInv(t: Tables, requester: Option<AgentId>, target: Option<AgentId>, proposal: Proposal, now: int,
                       id: NegotiationId, token: Token)
    requires Inv(t)
    ensures match CreateSpec(t, requester, target, proposal, now, id, token) case Ok(t') => Inv(t') case Err(_) => true
  {
    var r := CreateSpec(t, requester, target, proposal, now, id, token);
    if r.Ok? {
      var t' := r.value;
      CreatedRows(t, t', id, requester.value, target.value, proposal, now, token);
      BoundInvsKept(t, t');
      CreatedTokens(t, t', id, token);
    }
  }

  /** A new row with an unused token keeps the tokens distinct. */
  lemma CreatedTokens(t: Tables, t': Tables, id: NegotiationId, token: Token)
    requires Inv(t) && id !in t.negotiations && !TokenUsed(t.negotiations, token, id)
    requires t'.negotiations.Keys == t.negotiations.Keys + {id} && t'.negotiations[id].token == token
    requires forall n :: n in t.negotiations ==> t'.negotiations[n] == t.negotiations[n]
    ensures forall n, m ::
      n in t'.negotiations && m in t'.negotiations && t'.negotiations[n].token == t'.negotiations[m].token ==> n == m
  {
  }

  lemma RowsKept(t: Tables, t': Tables)
    requires Inv(t)
    requires t'.negotiations == t.negotiations && t'.rounds == t.rounds && t'.contracts == t.contracts
    ensures forall n {:trigger RowInv(t', n)} :: n in t'.negotiations ==> RowInv(t', n)
  {
    forall n | n in t'.negotiations
      ensures RowInv(t', n)
    {
      assert RowInv(t, n);
      RowInvKept(t, t', n);
    }
  }

  lemma SendKeepsInv(t: Tables, e: Envelope, known: set<AgentId>, active: set<AgentId>)
    requires Inv(t)
    ensures match SendSpec(t, e, known, active) case Ok(t') => Inv(t') case Err(_) => true
  {
    var r := SendSpec(t, e, known, active);
    if r.Ok? {
      var t' := r.value;
      RowsKept(t, t');
      BoundInvsKept(t, t');
      forall m | m in t'.tasks
        ensures TaskInv(t', m)
      {
        assert m != e.message ==> t'.tasks[m] == t.tasks[m];
      }
    }
  }

  lemma ExpiredRowInv(t: Tables, t': Tables, now: int, n: NegotiationId)
    requires n in t.negotiations && RowInv(t, n) && t' == t.(negotiations := ExpireDue(t.negotiations, now))
    ensures RowInv(t', n)
  {
    if t.negotiations[n].status == Accepted {
      RowInvKept(t, t', n);
    }
  }

  lemma ExpiredContractInv(t: Tables, t': Tables, now: int, c: ContractId)
    requires c in t.contracts && ContractInv(t, c) && t' == t.(negotiations := ExpireDue(t.negotiations, now))
    ensures ContractInv(t', c)
  {
    ContractInvKept(t, t', c);
  }

  lemma ExpiredTokens(negotiations: map<NegotiationId, Row>, now: int)
    ensures var rows := ExpireDue(negotiations, now);
      forall n :: n in rows ==> rows[n].token == negotiations[n].token
  {
  }

  /** Expiring due rows on its own keeps the invariant. */
  lemma ExpireKeepsInv(t: Tables, now: int)
    requires Inv(t)
    ensures Inv(t.(negotiations := ExpireDue(t.negotiations, now)))
  {
    var t' := t.(negotiations := ExpireDue(t.negotiations, now));
    forall n | n in t'.negotiations
      ensures RowInv(t', n)
    {
      assert RowInv(t, n);
      ExpiredRowInv(t, t', now, n);
    }
    forall c | c in t'.contracts
      ensures ContractInv(t', c)
    {
      assert ContractInv(t, c);
      ExpiredContractInv(t, t', now, c);
    }
    forall m | m in t'.tasks
      ensures TaskInv(t', m)
    {
      assert TaskInv(t, m);
    }
    ExpiredTokens(t.negotiations, now);
  }

  lemma OpenRowHasNoContract(t: Tables, id: NegotiationId, c: ContractId)
    requires Inv(t) && id in t.negotiations && Open(t.negotiations[id].status)
    requires c in t.contracts
    ensures t.contracts[c].negotiation != id
  {
    assert ContractInv(t, c);
  }

  lemma DecisionFitsHistory(row: Row, h: seq<Round>, response: Response, now: int, token: Token, actor: AgentId,
                            role: Role)
    requires HistoryFits(row, h) && Open(row.status) && RoleFits(row, Round(0, actor, role, RProposed, map[]))
    requires Decide(row, response, now, token).Ok? && now <= row.expiresAt
          && row.expiresAt <= LatestDeadline(row, row.roundCount)
    ensures var row' := Decide(row, response, now, token).value;
      && HistoryFits(row', h + [Round(row'.roundCount, actor, role, Recorded(response.decision), response.fields)])
      && row'.expiresAt <= LatestDeadline(row', row'.roundCount)
  {
    var row' := Decide(row, response, now, token).value;
    if response.decision == Counter {
      var m := Max(MIN_EXTENSION, Ttl(row.proposal));
      assert (row.roundCount - 1) * m + m == row.roundCount * m;
    }
  }

  /** A decision on an open row of tables in which due rows are expired. */
  datatype Settlement = Settlement(id: NegotiationId, response: Response, now: int, token: Token,
      contractId: ContractId, round: Round)

  ghost predicate Admissible(t: Tables, x: Settlement) {
    && x.id in t.negotiations && Open(t.negotiations[x.id].status)
    && x.now <= t.negotiations[x.id].expiresAt
    && Decide(t.negotiations[x.id], x.response, x.now, x.token).Ok?
    && var row := Decide(t.negotiations[x.id], x.response, x.now, x.token).value;
    && HistoryFits(row, RoundsOf(t.rounds, x.id) + [x.round])
    && row.expiresAt <= LatestDeadline(row, row.roundCount)
    && (x.response.decision == Accept ==> x.contractId !in t.contracts && !TokenUsed(t.negotiations, x.token, x.id))
  }

  ghost function Settle(t: Tables, x: Settlement): Tables
    requires Admissible(t, x)
  {
    t.(negotiations := t.negotiations[x.id := Decide(t.negotiations[x.id], x.response, x.now, x.token).value],
       rounds := t.rounds[x.id := RoundsOf(t.rounds, x.id) + [x.round]],
       contracts := if x.response.decision == Accept
                    then t.contracts[x.contractId := NewContract(x.id, t.negotiations[x.id], x.response, x.now,
                        x.token)]
                    else t.contracts)
  }

  lemma SettledRow(t: Tables, x: Settlement, n: NegotiationId)
    requires Inv(t) && Admissible(t, x) && n in t.negotiations
    ensures RowInv(Settle(t, x), n)
  {
    var t' := Settle(t, x);
    assert RowInv(t, n);
    if n == x.id {
      if t'.negotiations[n].status == Accepted {
        assert t'.contracts[x.contractId].negotiation == n;
        assert HasContract(t', n);
      }
    } else if t.negotiations[n].status == Accepted {
      assert HasContract(t, n);
      var c :| c in t.contracts && t.contracts[c].negotiation == n;
      assert c in t'.contracts && t'.contracts[c].negotiation == n;
      assert HasContract(t', n);
    }
  }

  lemma SettledContract(t: Tables, x: Settlement, c: ContractId)
    requires Inv(t) && Admissible(t, x) && c in Settle(t, x).contracts
    ensures ContractInv(Settle(t, x), c)
    ensures c in t.contracts ==> Settle(t, x).contracts[c] == t.contracts[c] && t.contracts[c].negotiation != x.id
  {
    if c in t.contracts {
      OpenRowHasNoContract(t, x.id, c);
      assert ContractInv(t, c);
    }
  }

  lemma SettledTokens(t: Tables, x: Settlement, n: NegotiationId, m: NegotiationId)
    requires Inv(t) && Admissible(t, x) && n in t.negotiations && m in t.negotiations
    requires Settle(t, x).negotiations[n].token == Settle(t, x).negotiations[m].token
    ensures n == m
  {
    var t' := Settle(t, x);
    assert forall k :: k in t.negotiations && k != x.id ==> t'.negotiations[k].token == t.negotiations[k].token;
    assert x.response.decision != Accept ==> t'.negotiations[x.id].token == t.negotiations[x.id].token;
  }

  lemma SettleKeepsInv(t: Tables, x: Settlement)
    requires Inv(t) && Admissible(t, x)
    ensures Inv(Settle(t, x))
  {
    var t' := Settle(t, x);
    forall n | n in t'.negotiations
      ensures RowInv(t', n)
    {
      SettledRow(t, x, n);
    }
    forall c | c in t'.contracts
      ensures ContractInv(t', c)
    {
      SettledContract(t, x, c);
    }
    forall c, d | c in t'.contracts && d in t'.contracts && t'.contracts[c].negotiation == t'.contracts[d].negotiation
      ensures c == d
    {
      SettledContract(t, x, c);
      SettledContract(t, x, d);
    }
    forall m | m in t'.tasks
      ensures TaskInv(t', m)
    {
      assert TaskInv(t, m);
      if t.tasks[m].contract.Some? {
        SettledContract(t, x, t.tasks[m].contract.value);
      }
    }
    forall n, m | n in t'.negotiations && m in t'.negotiations && t'.negotiations[n].token == t'.negotiations[m].token
      ensures n == m
    {
      SettledTokens(t, x, n, m);
    }
  }

  lemma RespondKeepsInv(t: Tables, id: NegotiationId, response: Response, actor: Option<AgentId>, now: int,
                        token: Token, contractId: ContractId)
    requires Inv(t)
    ensures match RespondSpec(t, id, response, actor, now, token, contractId) case Ok(t') => Inv(t') case Err(_) => true
  {
    var r := RespondSpec(t, id, response, actor, now, token, contractId);
    if r.Ok? {
      ExpireKeepsInv(t, now);
      var u := t.(negotiations := ExpireDue(t.negotiations, now));
      var row := u.negotiations[id];
      var row' := Decide(row, response, now, token).value;
      var role := if actor.value == row.requester then Requester else Target;
      var round := Round(row'.roundCount, actor.value, role, Recorded(response.decision), response.fields);
      assert RowInv(u, id);
      DecisionFitsHistory(row, u.rounds[id], response, now, token, actor.value, role);
      SettleKeepsInv(u, Settlement(id, response, now, token, contractId, round));
    }
  }

  lemma {:induction false} RunKeepsInv(ops: seq<Op>)
    ensures Inv(Run(EMPTY, ops))
  {
    if ops != [] {
      var init, op := ops[..|ops| - 1], ops[|ops| - 1];
      RunKeepsInv(init);
      var t := Run(EMPTY, init);
      match op {
        case Create(requester, target, proposal, now, id, token) =>
          CreateKeepsInv(t, requester, target, proposal, now, id, token);
        case Answer(id, response, actor, now, token, contractId) =>
          RespondKeepsInv(t, id, response, actor, now, token, contractId);
        case Send(e, known, active) => SendKeepsInv(t, e, known, active);
      }
    }
  }

  /** Over every run each committed negotiation has the history proposed, countered*, and at most
      one deciding round, its round count is one plus its counters and at most the maximum, and a
      contract exists for it exactly when it is accepted; that contract is the only one and
      carries the negotiation's parties, capability and session token, and its terms are the
      proposal overridden by the accepting response. */
  lemma CommittedNegotiation(ops: seq<Op>, n: NegotiationId)
    requires n in Run(EMPTY, ops).negotiations
    ensures var t := Run(EMPTY, ops);
      && n in t.rounds && HistoryFits(t.negotiations[n], t.rounds[n])
      && (t.negotiations[n].status == Accepted <==> HasContract(t, n))
      && (forall c :: c in t.contracts && t.contracts[c].negotiation == n ==>
            && t.contracts[c].token == t.negotiations[n].token
            && t.negotiations[n].response.Some?
            && t.contracts[c].terms == t.negotiations[n].proposal.fields + t.negotiations[n].response.value.fields
            && t.contracts[c].requester == t.negotiations[n].requester
            && t.contracts[c].target == t.negotiations[n].target
            && t.contracts[c].capability == t.negotiations[n].capability)
      && (forall c, d ::
            c in t.contracts && d in t.contracts && t.contracts[c].negotiation == n == t.contracts[d].negotiation ==>
              c == d)
  {
    RunKeepsInv(ops);
    var t := Run(EMPTY, ops);
    assert RowInv(t, n);
    if HasContract(t, n) {
      var c :| c in t.contracts && t.contracts[c].negotiation == n;
      assert ContractInv(t, c);
    }
    forall c | c in t.contracts && t.contracts[c].negotiation == n
      ensures ContractInv(t, c)
    {
    }
  }

  /** Over every run the terms of a contract are those of the first round overridden by those of the
      accepting one, whatever was countered in between. */
  lemma ContractTerms(ops: seq<Op>, c: ContractId)
    requires c in Run(EMPTY, ops).contracts
    ensures var t := Run(EMPTY, ops);
      var n := t.contracts[c].negotiation;
      && n in t.negotiations && n in t.rounds && HistoryFits(t.negotiations[n], t.rounds[n])
      && t.negotiations[n].status == Accepted
      && var h := t.rounds[n];
         && |h| == t.negotiations[n].roundCount + 1
         && t.contracts[c].terms == h[0].fields + h[|h| - 1].fields
  {
    RunKeepsInv(ops);
    var t := Run(EMPTY, ops);
    assert ContractInv(t, c) && RowInv(t, t.contracts[c].negotiation);
  }

  /** When a contract keeps a field of the last counter: exactly if the accepting response, or
      failing that the proposal, gives the same value. */
  lemma CounterFieldKeptIff(ops: seq<Op>, c: ContractId, field: string)
    requires c in Run(EMPTY, ops).contracts
    requires var t := Run(EMPTY, ops);
      var n := t.contracts[c].negotiation;
      n in t.rounds && |t.rounds[n]| > 2 && field in t.rounds[n][|t.rounds[n]| - 2].fields
    ensures var t := Run(EMPTY, ops);
      var h := t.rounds[t.contracts[c].negotiation];
      var counter, accepting := h[|h| - 2], h[|h| - 1];
      && counter.decision == RCountered && accepting.decision == RAccepted
      && (field in t.contracts[c].terms && t.contracts[c].terms[field] == counter.fields[field]
          <==> if field in accepting.fields then accepting.fields[field] == counter.fields[field]
               else field in h[0].fields && h[0].fields[field] == counter.fields[field])
  {
    ContractTerms(ops, c);
  }

  lemma RunSnoc(t: Tables, ops: seq<Op>, op: Op)
    ensures Run(t, ops + [op]) == Apply(Run(t, ops), op)
  {
    assert (ops + [op])[..|ops|] == ops;
  }

  const PRICE_TEN := Proposal("translate", None, map["price" := "10"])

  lemma AfterProposal()
    ensures Run(EMPTY, [Create(Some(1), Some(2), PRICE_TEN, 0, 0, 100)])
         == EMPTY.(negotiations := map[0 := NewRow(1, 2, PRICE_TEN, 0, 100)],
                   rounds := map[0 := [Round(1, 1, Requester, RProposed, PRICE_TEN.fields)]])
  {
    RunSnoc(EMPTY, [], Create(Some(1), Some(2), PRICE_TEN, 0, 0, 100));
    assert [] + [Create(Some(1), Some(2), PRICE_TEN, 0, 0, 100)] == [Create(Some(1), Some(2), PRICE_TEN, 0, 0, 100)];
  }

  /** A run in which the requester accepts its own proposal, and a contract arises. */
  lemma RequesterAcceptsOwnProposal()
    ensures var t := Run(EMPTY, [Create(Some(1), Some(2), PRICE_TEN, 0, 0, 100),
                                 Answer(0, Response(Accept, map[]), Some(1), 10, 101, 0)]);
      && 0 in t.contracts && t.contracts[0].requester == 1 && t.contracts[0].target == 2 && t.contracts[0].active
      && RoundsOf(t.rounds, 0) == [Round(1, 1, Requester, RProposed, PRICE_TEN.fields),
          Round(1, 1, Requester, RAccepted, map[])]
  {
    var create, accept := Create(Some(1), Some(2), PRICE_TEN, 0, 0, 100),
        Answer(0, Response(Accept, map[]), Some(1), 10, 101, 0);
    AfterProposal();
    RunSnoc(EMPTY, [create], accept);
    assert [create] + [accept] == [create, accept];
    var t := Run(EMPTY, [create]);
    RespondSucceedsIff(t, 0, Response(Accept, map[]), Some(1), 10, 101, 0);
  }

  const COUNTER_TWENTY := Response(Counter, map["price" := "20"])

  lemma AfterCounter()
    ensures var t := Run(EMPTY, [Create(Some(1), Some(2), PRICE_TEN, 0, 0, 100),
                                 Answer(0, COUNTER_TWENTY, Some(2), 10, 0, 0)]);
      && t.negotiations.Keys == {0} && t.contracts == map[]
      && t.negotiations[0] == NewRow(1, 2, PRICE_TEN, 0, 100).(status := Countered, roundCount := 2,
                                expiresAt := 10 + Max(MIN_EXTENSION, Ttl(PRICE_TEN)), response := Some(COUNTER_TWENTY))
      && RoundsOf(t.rounds, 0) == [Round(1, 1, Requester, RProposed, PRICE_TEN.fields),
                                    Round(2, 2, Target, RCountered, COUNTER_TWENTY.fields)]
  {
    var create, counter := Create(Some(1), Some(2), PRICE_TEN, 0, 0, 100), Answer(0, COUNTER_TWENTY, Some(2), 10, 0, 0);
    AfterProposal();
    RunSnoc(EMPTY, [create], counter);
    assert [create] + [counter] == [create, counter];
    RespondSucceedsIff(Run(EMPTY, [create]), 0, COUNTER_TWENTY, Some(2), 10, 0, 0);
  }

  /** A run in which the requester accepts a counter of 20 and gets a contract for its own 10. */
  lemma CounterTermsAreDropped()
    ensures var t := Run(EMPTY, [Create(Some(1), Some(2), PRICE_TEN, 0, 0, 100),
                                 Answer(0, COUNTER_TWENTY, Some(2), 10, 0, 0),
                                 Answer(0, Response(Accept, map[]), Some(1), 20, 101, 0)]);
      && COUNTER_TWENTY.fields == map["price" := "20"]
      && 0 in t.contracts && t.contracts[0].terms == map["price" := "10"]
      && RoundsOf(t.rounds, 0) == [Round(1, 1, Requester, RProposed, PRICE_TEN.fields),
                                    Round(2, 2, Target, RCountered, COUNTER_TWENTY.fields),
                                    Round(2, 1, Requester, RAccepted, map[])]
  {
    var create, counter := Create(Some(1), Some(2), PRICE_TEN, 0, 0, 100), Answer(0, COUNTER_TWENTY, Some(2), 10, 0, 0);
    var accept := Answer(0, Response(Accept, map[]), Some(1), 20, 101, 0);
    AfterCounter();
    RunSnoc(EMPTY, [create, counter], accept);
    assert [create, counter] + [accept] == [create, counter, accept];
    RespondSucceedsIff(Run(EMPTY, [create, counter]), 0, Response(Accept, map[]), Some(1), 20, 101, 0);
  }

  /** Over every run a task with a contract matches it, and its negotiation is accepted. */
  lemma ContractBoundTask(ops: seq<Op>, m: TaskId)
    requires m in Run(EMPTY, ops).tasks && Run(EMPTY, ops).tasks[m].contract.Some?
    ensures var t := Run(EMPTY, ops);
      var task, c := t.tasks[m], t.tasks[m].contract.value;
      && c in t.contracts
      && task.sender == t.contracts[c].requester && task.recipient == t.contracts[c].target
      && task.capability == t.contracts[c].capability
      && task.negotiation == Some(t.contracts[c].negotiation)
      && t.contracts[c].negotiation in t.negotiations
      && t.negotiations[t.contracts[c].negotiation].status == Accepted
  {
    RunKeepsInv(ops);
    var t := Run(EMPTY, ops);
    assert TaskInv(t, m);
    assert ContractInv(t, t.tasks[m].contract.value);
  }

  /* ---------- absorbing states ---------- */

  lemma ClosedStaysClosed(t: Tables, op: Op, n: NegotiationId)
    requires n in t.negotiations && !Open(t.negotiations[n].status)
    ensures n in Apply(t, op).negotiations && Apply(t, op).negotiations[n] == t.negotiations[n]
    ensures RoundsOf(Apply(t, op).rounds, n) == RoundsOf(t.rounds, n)
  {
  }

  /** Accepted, declined and expired are final: whatever follows, row and history stay. */
  lemma {:induction false} ClosedIsAbsorbing(t: Tables, ops: seq<Op>, n: NegotiationId)
    requires n in t.negotiations && !Open(t.negotiations[n].status)
    ensures n in Run(t, ops).negotiations && Run(t, ops).negotiations[n] == t.negotiations[n]
    ensures RoundsOf(Run(t, ops).rounds, n) == RoundsOf(t.rounds, n)
  {
    if ops != [] {
      ClosedIsAbsorbing(t, ops[..|ops| - 1], n);
      ClosedStaysClosed(Run(t, ops[..|ops| - 1]), ops[|ops| - 1], n);
    }
  }

  /* ---------- deadlines ---------- */

  /** No response takes effect after the deadline, or by anyone but the two participants: it then
      leaves all tables alone; and a response that takes effect only expires other rows. */
  lemma ResponseInTime(t: Tables, id: NegotiationId, response: Response, actor: Option<AgentId>, now: int, token: Token,
                       contractId: ContractId, n: NegotiationId)
    requires n in t.negotiations
    ensures var t' := Apply(t, Answer(id, response, actor, now, token, contractId));
      && (t' != t ==>
            && id in t.negotiations && Open(t.negotiations[id].status)
            && now <= t.negotiations[id].expiresAt
            && (actor == Some(t.negotiations[id].requester) || actor == Some(t.negotiations[id].target)))
      && n in t'.negotiations
      && (n != id || now > t.negotiations[n].expiresAt ==>
            t'.negotiations[n] == t.negotiations[n] || t'.negotiations[n] == ExpireRow(t.negotiations[n], now))
  {
  }

  /** When a response succeeds: exactly for an open negotiation before its deadline, a participant,
      one of the three decisions, a counter only below the round limit, and fresh identifiers. */
  lemma RespondSucceedsIff(t: Tables, id: NegotiationId, response: Response, actor: Option<AgentId>, now: int,
                           token: Token, contractId: ContractId)
    ensures RespondSpec(t, id, response, actor, now, token, contractId).Ok? <==>
              && id in t.negotiations && Open(t.negotiations[id].status)
              && now <= t.negotiations[id].expiresAt
              && (actor == Some(t.negotiations[id].requester) || actor == Some(t.negotiations[id].target))
              && response.decision in {Counter, Accept, Decline}
              && (response.decision == Counter ==> t.negotiations[id].roundCount < 3)
              && (response.decision == Accept ==>
                  && contractId !in t.contracts && (forall c :: c in t.contracts ==> t.contracts[c].negotiation != id)
                  && forall n :: n in t.negotiations && n != id ==> t.negotiations[n].token != token)
  {
    var rows := ExpireDue(t.negotiations, now);
    assert TokenUsed(rows, token, id) <==> TokenUsed(t.negotiations, token, id) by {
      assert forall n :: n in rows ==> rows[n].token == t.negotiations[n].token;
    }
  }

  lemma MulMonotone(a: int, b: int, m: int)
    requires a <= b && m >= 0
    ensures a * m <= b * m
  {
  }

  /** Over every run an acceptance happens no later than creation plus the time to live plus one
      extension per possible counter. */
  lemma AcceptanceDeadline(ops: seq<Op>, c: ContractId)
    requires c in Run(EMPTY, ops).contracts
    ensures var t := Run(EMPTY, ops);
      var k := t.contracts[c];
      && k.negotiation in t.negotiations
      && var row := t.negotiations[k.negotiation];
         k.acceptedAt <= row.createdAt + Ttl(row.proposal) + (MAX_ROUNDS - 1) * Max(MIN_EXTENSION, Ttl(row.proposal))
  {
    RunKeepsInv(ops);
    var t := Run(EMPTY, ops);
    assert ContractInv(t, c) && RowInv(t, t.contracts[c].negotiation);
    var row := t.negotiations[t.contracts[c].negotiation];
    var m := Max(MIN_EXTENSION, Ttl(row.proposal));
    MulMonotone(row.roundCount - 1, MAX_ROUNDS - 1, m);
  }

  /* ---------- what each call does, and why it refuses ---------- */

  /** A proposal goes through exactly between two different known agents, under a new id and a new token;
      the deadline is the time to live, or five minutes, after the creation. */
  lemma CreateIff(t: Tables, requester: Option<AgentId>, target: Option<AgentId>, proposal: Proposal, now: int,
                  id: NegotiationId, token: Token)
    ensures var r := CreateSpec(t, requester, target, proposal, now, id, token);
      && (r == Err(InvalidAgents) <==> requester.None? || target.None? || requester == target)
      && (r == Err(IntegrityViolation)
          <==> r != Err(InvalidAgents)
               && (id in t.negotiations || exists n :: n in t.negotiations && t.negotiations[n].token == token))
      && (r.Ok? <==> r != Err(InvalidAgents) && r != Err(IntegrityViolation))
      && (r.Ok? ==>
            var t' := r.value;
            && t'.negotiations.Keys == t.negotiations.Keys + {id} && t'.negotiations - {id} == t.negotiations - {id}
            && t'.rounds.Keys == t.rounds.Keys + {id} && t'.rounds - {id} == t.rounds - {id}
            && t'.contracts == t.contracts && t'.tasks == t.tasks
            && var row := t'.negotiations[id];
               && row.requester == requester.value && row.target == target.value && row.status == Proposed
               && row.capability == proposal.capability && row.proposal == proposal && row.response == None
               && row.token == token && row.roundCount == 1 && row.createdAt == now
               && row.expiresAt == now + (match proposal.ttl case Some(ttl) => ttl case None => 300)
               && t'.rounds[id] == [Round(1, requester.value, Requester, RProposed, proposal.fields)])
  {
  }

  /** Overdue: open, and the deadline is before the instant. */
  predicate Overdue(row: Row, now: int) {
    row.status in {Proposed, Countered} && row.expiresAt < now
  }

  /** Why a response is refused, in the order of the checks. */
  function Refusal(t: Tables, id: NegotiationId, response: Response, actor: Option<AgentId>, now: int): Error {
    if id !in t.negotiations then NotFound
    else
      var row := t.negotiations[id];
      if actor.None? || actor.value !in {row.requester, row.target} then NotParticipant
      else if row.status in {Accepted, Declined, Expired} || Overdue(row, now) || response.decision.Unknown?
      then InvalidTransition
      else if response.decision == Counter then RoundsExceeded
      else if response.decision == Expire then InvalidDecision
      else IntegrityViolation
  }

  /** A response that is refused names the first check that fails: a counter is refused for its round only
      at three rounds, and an acceptance only for identifiers that are taken. */
  lemma RespondRefused(t: Tables, id: NegotiationId, response: Response, actor: Option<AgentId>, now: int, token: Token,
                       contractId: ContractId)
    requires RespondSpec(t, id, response, actor, now, token, contractId).Err?
    ensures var e := RespondSpec(t, id, response, actor, now, token, contractId).error;
      && e == Refusal(t, id, response, actor, now)
      && (e == RoundsExceeded ==> t.negotiations[id].roundCount >= 3)
      && (e == IntegrityViolation ==> response.decision == Accept)
  {
    RespondSucceedsIff(t, id, response, actor, now, token, contractId);
  }

  /** What a response that goes through does: its row takes the decision, a counter moves the deadline to at
      least a minute and the time to live from now, an acceptance brings the session token and the one new
      contract; its round is added to the history; every other row only expires if it is overdue. */
  lemma RespondEffect(t: Tables, id: NegotiationId, response: Response, actor: Option<AgentId>, now: int, token: Token,
                      contractId: ContractId)
    requires RespondSpec(t, id, response, actor, now, token, contractId).Ok?
    ensures id in t.negotiations && actor.Some?
    ensures var t', before := RespondSpec(t, id, response, actor, now, token, contractId).value, t.negotiations[id];
      && t'.negotiations.Keys == t.negotiations.Keys && t'.tasks == t.tasks
      && (forall n :: n in t.negotiations && n != id ==>
            t'.negotiations[n]
              == if Overdue(t.negotiations[n], now) then t.negotiations[n].(status := Expired) else t.negotiations[n])
      && t'.rounds - {id} == t.rounds - {id} && id in t'.rounds
      && var after := t'.negotiations[id];
         && after.requester == before.requester && after.target == before.target
         && after.capability == before.capability && after.proposal == before.proposal
         && after.createdAt == before.createdAt && after.response == Some(response)
         && t'.rounds[id] == RoundsOf(t.rounds, id)
              + [Round(after.roundCount, actor.value, if actor.value == before.requester then Requester else Target,
                       match response.decision case Counter => RCountered case Accept => RAccepted case _ => RDeclined,
                       response.fields)]
         && (response.decision == Counter ==>
               && after.status == Countered && after.roundCount == before.roundCount + 1 && after.token == before.token
               && after.expiresAt
                    == now + Max(60, match before.proposal.ttl case Some(ttl) => ttl case None => 300))
         && (response.decision != Counter ==>
               after.roundCount == before.roundCount && after.expiresAt == before.expiresAt)
         && (response.decision == Decline ==> after.status == Declined && after.token == before.token)
         && (response.decision == Accept ==> after.status == Accepted && after.token == token)
         && t'.contracts == if response.decision == Accept
                            then t.contracts[contractId := Contract(id, before.requester, before.target,
                                     before.capability, before.proposal.fields + response.fields, token, true, now)]
                            else t.contracts
  {
    RespondSucceedsIff(t, id, response, actor, now, token, contractId);
  }

  lemma MaxMeaning(a: int, b: int)
    ensures Max(a, b) >= a && Max(a, b) >= b && Max(a, b) in {a, b}
  {
  }

  /** Whether a contract is there, active, and between the two agents of a message for its capability. */
  predicate Covers(t: Tables, c: ContractId, e: Envelope) {
    c in t.contracts && t.contracts[c].active
      && (t.contracts[c].requester, t.contracts[c].target, t.contracts[c].capability)
           == (e.sender, e.recipient, e.capability)
  }

  /** A message goes through exactly if it is new, has time to live, goes from a known to an active agent, and
      is covered by the contract that it names, if any; it then becomes a task, and nothing else changes. */
  lemma SendIff(t: Tables, e: Envelope, known: set<AgentId>, active: set<AgentId>)
    ensures var r := SendSpec(t, e, known, active);
      && (r.Ok? <==>
            && e.message !in t.tasks && e.ttl > 0 && e.recipient in active && e.sender in known
            && (e.contract.Some? ==> Covers(t, e.contract.value, e)))
      && (r.Ok? ==>
            r.value == t.(tasks := t.tasks[e.message := Task(e.sender, e.recipient, e.capability, e.contract,
                            if e.contract.Some? then Some(t.contracts[e.contract.value].negotiation) else None)]))
      && (r.Err? ==>
            r.error == if e.message in t.tasks then DuplicateMessage
                       else if e.ttl <= 0 then TtlExpired
                       else if e.recipient !in active then RecipientUnavailable
                       else if e.sender !in known then SenderUnknown
                       else if e.contract.value in t.contracts && t.contracts[e.contract.value].active
                       then ContractMismatch else ContractUnavailable)
  {
  }

  /* ---------- how a negotiation comes to its status ---------- */

  /** An answer to a negotiation that goes through with a decision. */
  predicate Answers(t: Tables, op: Op, n: NegotiationId, decision: Decision) {
    op.Answer? && op.id == n && op.response.decision == decision && Attempt(t, op).Ok?
  }

  /** An answer to another negotiation that goes through when this one is overdue. */
  predicate Overtakes(t: Tables, op: Op, n: NegotiationId) {
    op.Answer? && op.id != n && Attempt(t, op).Ok? && n in t.negotiations && Overdue(t.negotiations[n], op.now)
  }

  ghost predicate WasAnswered(ops: seq<Op>, n: NegotiationId, decision: Decision) {
    exists i :: 0 <= i < |ops| && Answers(Run(EMPTY, ops[..i]), ops[i], n, decision)
  }

  ghost predicate WasOvertaken(ops: seq<Op>, n: NegotiationId) {
    exists i :: 0 <= i < |ops| && Overtakes(Run(EMPTY, ops[..i]), ops[i], n)
  }

  lemma PrefixesSnoc(init: seq<Op>, op: Op)
    ensures var all := init + [op];
      && (forall i :: 0 <= i < |init| ==> all[..i] == init[..i] && all[i] == init[i])
      && all[..|init|] == init && all[|init|] == op && |all| == |init| + 1
  {
  }

  lemma AnsweredSnoc(init: seq<Op>, op: Op, n: NegotiationId, decision: Decision)
    ensures WasAnswered(init + [op], n, decision)
       <==> WasAnswered(init, n, decision) || Answers(Run(EMPTY, init), op, n, decision)
  {
    PrefixesSnoc(init, op);
  }

  lemma OvertakenSnoc(init: seq<Op>, op: Op, n: NegotiationId)
    ensures WasOvertaken(init + [op], n) <==> WasOvertaken(init, n) || Overtakes(Run(EMPTY, init), op, n)
  {
    PrefixesSnoc(init, op);
  }

  /** Which status goes with which history. */
  predicate StatusFits(row: Option<Row>, countered: bool, accepted: bool, declined: bool, overtaken: bool) {
    match row
    case None => !countered && !accepted && !declined && !overtaken
    case Some(r) =>
      && (r.status == Accepted <==> accepted)
      && (r.status == Declined <==> declined)
      && (r.status == Expired <==> overtaken)
      && (r.status == Countered <==> countered && !accepted && !declined && !overtaken)
  }

  function Get(t: Tables, n: NegotiationId): Option<Row> {
    if n in t.negotiations then Some(t.negotiations[n]) else None
  }

  lemma StatusStillFits(t: Tables, op: Op, n: NegotiationId, countered: bool, accepted: bool, declined: bool,
                        overtaken: bool)
    requires StatusFits(Get(t, n), countered, accepted, declined, overtaken)
    ensures StatusFits(Get(Apply(t, op), n), countered || Answers(t, op, n, Counter),
              accepted || Answers(t, op, n, Accept), declined || Answers(t, op, n, Decline),
              overtaken || Overtakes(t, op, n))
  {
    if op.Answer? && Attempt(t, op).Ok? {
      RespondSucceedsIff(t, op.id, op.response, op.actor, op.now, op.token, op.contractId);
      RespondEffect(t, op.id, op.response, op.actor, op.now, op.token, op.contractId);
    }
  }

  /** The status of a negotiation, over every run: it is accepted or declined if and only if some answer to
      it went through with that decision, expired if and only if an answer to another negotiation went
      through after its deadline while it was open, countered if and only if a counter went through and
      none of these happened, and otherwise proposed. */
  lemma {:induction false} StatusIff(ops: seq<Op>, n: NegotiationId)
    ensures StatusFits(Get(Run(EMPTY, ops), n), WasAnswered(ops, n, Counter), WasAnswered(ops, n, Accept),
              WasAnswered(ops, n, Decline), WasOvertaken(ops, n))
  {
    if ops != [] {
      var init, op := ops[..|ops| - 1], ops[|ops| - 1];
      StatusIff(init, n);
      assert ops == init + [op];
      AnsweredSnoc(init, op, n, Counter);
      AnsweredSnoc(init, op, n, Accept);
      AnsweredSnoc(init, op, n, Decline);
      OvertakenSnoc(init, op, n);
      StatusStillFits(Run(EMPTY, init), op, n, WasAnswered(init, n, Counter), WasAnswered(init, n, Accept),
                      WasAnswered(init, n, Decline), WasOvertaken(init, n));
    }
  }
}
