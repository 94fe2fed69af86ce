/**
 The marketplace escrow ledger: rows in order of creation, with the constraints of the table.
 Each call is one transaction; a call that raises leaves the rows alone.
 */
module Escrow {
  import opened Wrappers

  type AgentId = nat
  type ListingId = nat
  type TaskId = nat
  type EscrowId = nat

  datatype Status = Held | Released | Refunded | Disputed

  datatype Row = Row(
    id: EscrowId,
    listing: ListingId,
    buyer: AgentId,
    seller: AgentId,
    task: Option<TaskId>,
    amount: real,
    currency: string,
    key: Option<string>,
    status: Status,
    settledAt: Option<int>,
    metadata: map<string, string>)

  type Ledger = seq<Row>

  datatype TaskRow = TaskRow(sender: AgentId, recipient: AgentId, succeeded: bool)

  /** The other tables a call reads. */
  datatype Env = Env(listings: map<ListingId, AgentId>, tasks: map<TaskId, TaskRow>)

  datatype Error =
    | InvalidBuyer
    | AmountNotPositive
    | InvalidCurrency
    | ListingNotFound
    | OwnListing
    | TaskNotFound
    | ParticipantsMismatch
    | KeyTaken
    | ConstraintViolation
    | EscrowNotFound
    | NotParticipant
    | WrongStatus
    | TaskNotSuccessful
    | ReasonRequired

  datatype Request = Request(
    buyer: Option<AgentId>,
    listing: ListingId,
    amount: real,
    currency: string,
    task: Option<TaskId>,
    key: Option<string>,
    metadata: map<string, string>)

  const MAX_CURRENCY := 12
  const SCALE := 100000000.0
  const AMOUNT_LIMIT := 1000000000000.0

  /* ---------- text and numbers ---------- */

  function Upper(s: string): string {
    if s == "" then "" else [if 'a' <= s[0] <= 'z' then (s[0] as int - 32) as char else s[0]] + Upper(s[1..])
  }

  function Strip(s: string): string {
    if s != "" && s[0] == ' ' then Strip(s[1..])
    else if s != "" && s[|s| - 1] == ' ' then Strip(s[..|s| - 1])
    else s
  }

  predicate Alphanumeric(s: string) {
    forall i :: 0 <= i < |s| ==> '0' <= s[i] <= '9' || 'A' <= s[i] <= 'Z'
  }

  function Normalized(currency: string): string {
    Upper(Strip(currency))
  }

  /** The column keeps eight decimals, halves rounded up. */
  function StoredAmount(x: real): real {
    (x * SCALE + 0.5).Floor as real / SCALE
  }

  predicate EightDecimals(x: real) {
    x * SCALE == (x * SCALE).Floor as real
  }

  lemma StoredIffEightDecimals(x: real)
    ensures StoredAmount(x) == x <==> EightDecimals(x)
  {
    var y := x * SCALE;
    assert y / SCALE == x;
    if EightDecimals(x) {
      assert (y + 0.5).Floor == y.Floor;
    } else {
      assert StoredAmount(x) * SCALE == (y + 0.5).Floor as real;
    }
  }

  const LOWER := "abcdefghijklmnopqrstuvwxyz"
  const CAPITAL := "ABCDEFGHIJKLMNOPQRSTUVWXYZ"

  lemma {:induction false} UpperAt(s: string, i: nat)
    requires i < |s|
    ensures |Upper(s)| == |s|
    ensures 'a' <= s[i] <= 'z' ==> Upper(s)[i] == CAPITAL[s[i] as int - 'a' as int]
    ensures !('a' <= s[i] <= 'z') ==> Upper(s)[i] == s[i]
  {
    if i > 0 {
      UpperAt(s[1..], i - 1);
    } else if |s| > 1 {
      UpperAt(s[1..], 0);
    } else {
      assert s[1..] == "";
    }
    if 'a' <= s[i] <= 'z' {
      Capital(s[i]);
    }
  }

  /** The two alphabets in step. */
  lemma Capital(c: char)
    requires 'a' <= c <= 'z'
    ensures LOWER[c as int - 'a' as int] == c && CAPITAL[c as int - 'a' as int] as int == c as int - 32
  {
  }

  predicate AllBlank(s: string) {
    forall i :: 0 <= i < |s| ==> s[i] == ' '
  }

  /** `core` is `s` without some blanks at both ends: from `front` to `back`. */
  predicate Core(s: string, core: string, front: nat, back: nat) {
    front <= back <= |s| && core == s[front..back] && AllBlank(s[..front]) && AllBlank(s[back..])
  }

  lemma CoreBehindBlank(s: string, core: string, front: nat, back: nat)
    requires s != "" && s[0] == ' ' && Core(s[1..], core, front, back)
    ensures Core(s, core, front + 1, back + 1)
  {
    assert s[1..][front..back] == s[front + 1..back + 1] && s[1..][back..] == s[back + 1..];
    assert s[..front + 1] == [' '] + s[1..][..front];
  }

  lemma CoreBeforeBlank(s: string, core: string, front: nat, back: nat)
    requires s != "" && s[|s| - 1] == ' ' && Core(s[..|s| - 1], core, front, back)
    ensures Core(s, core, front, back)
  {
    var init := s[..|s| - 1];
    assert init[front..back] == s[front..back] && init[..front] == s[..front];
    assert s[back..] == init[back..] + [' '];
  }

  /** What stripping takes off: the blanks at both ends and nothing else. */
  lemma {:induction false} StripMeaning(s: string) returns (front: nat, back: nat)
    ensures Core(s, Strip(s), front, back)
    ensures Strip(s) != "" ==> Strip(s)[0] != ' ' && Strip(s)[|Strip(s)| - 1] != ' '
    decreases |s|
  {
    if s != "" && s[0] == ' ' {
      front, back := StripMeaning(s[1..]);
      CoreBehindBlank(s, Strip(s[1..]), front, back);
      front, back := front + 1, back + 1;
    } else if s != "" && s[|s| - 1] == ' ' {
      front, back := StripMeaning(s[..|s| - 1]);
      CoreBeforeBlank(s, Strip(s[..|s| - 1]), front, back);
    } else {
      front, back := 0, |s|;
      assert s[0..|s|] == s;
    }
  }

  lemma StripEmptyIff(s: string)
    ensures Strip(s) == "" <==> AllBlank(s)
  {
    var front, back := StripMeaning(s);
    if Strip(s) == "" {
      assert front == back && s == s[..front] + s[back..];
    } else {
      assert s[front..back][0] == s[front];
    }
  }

  /* ---------- lookups ---------- */

  function FindId(rows: Ledger, id: EscrowId): (i: nat)
    ensures i <= |rows|
    ensures i < |rows| ==> rows[i].id == id
    ensures forall j :: 0 <= j < i ==> rows[j].id != id
  {
    if rows == [] || rows[0].id == id then 0 else 1 + FindId(rows[1..], id)
  }

  function FindKey(rows: Ledger, key: string): (i: nat)
    ensures i <= |rows|
    ensures i < |rows| ==> rows[i].key == Some(key)
    ensures forall j :: 0 <= j < i ==> rows[j].key != Some(key)
  {
    if rows == [] || rows[0].key == Some(key) then 0 else 1 + FindKey(rows[1..], key)
  }

  /* ---------- transactions ---------- */

  /** The checks before the idempotency key is looked at. */
  function Precheck(env: Env, q: Request): Option<Error> {
    if q.buyer.None? then Some(InvalidBuyer)
    else if q.amount <= 0.0 then Some(AmountNotPositive)
    else if Normalized(q.currency) == "" || |Normalized(q.currency)| > MAX_CURRENCY
        || !Alphanumeric(Normalized(q.currency)) then Some(InvalidCurrency)
    else if q.listing !in env.listings then Some(ListingNotFound)
    else if env.listings[q.listing] == q.buyer.value then Some(OwnListing)
    else if q.task.Some? && q.task.value !in env.tasks then Some(TaskNotFound)
    else if q.task.Some? && (env.tasks[q.task.value].sender != q.buyer.value
        || env.tasks[q.task.value].recipient != env.listings[q.listing])
    then Some(ParticipantsMismatch)
    else None
  }

  predicate HasKey(q: Request) {
    q.key.Some? && q.key.value != ""
  }

  /** A repeat agrees with the row of its key on buyer, listing, amount and currency. */
  predicate Matches(row: Row, q: Request) {
    Some(row.buyer) == q.buyer && row.listing == q.listing && row.amount == q.amount
        && row.currency == Normalized(q.currency)
  }

  /** The constraints of the table on a new row. */
  predicate Insertable(rows: Ledger, row: Row) {
    && row.amount > 0.0 && row.amount < AMOUNT_LIMIT
    && forall i :: 0 <= i < |rows| ==>
         && rows[i].id != row.id
         && (row.task.Some? ==> rows[i].task != row.task)
         && (row.key.Some? ==> rows[i].key != row.key)
  }

  function NewRow(env: Env, q: Request, id: EscrowId): Row
    requires Precheck(env, q).None?
  {
    Row(id, q.listing, q.buyer.value, env.listings[q.listing], q.task, StoredAmount(q.amount),
        Normalized(q.currency), q.key,
        Held, None, q.metadata)
  }

  /** A creation answers with a row: a new one at the end of the ledger, or the row of its key. */
  datatype Created = Created(rows: Ledger, row: Row)

  function CreateSpec(rows: Ledger, env: Env, q: Request, id: EscrowId): Result<Created, Error> {
    if Precheck(env, q).Some? then Err(Precheck(env, q).value)
    else if HasKey(q) && FindKey(rows, q.key.value) < |rows| then
      var row := rows[FindKey(rows, q.key.value)];
      if Matches(row, q) then Ok(Created(rows, row)) else Err(KeyTaken)
    else if !Insertable(rows, NewRow(env, q, id)) then Err(ConstraintViolation)
    else Ok(Created(rows + [NewRow(env, q, id)], NewRow(env, q, id)))
  }

  predicate Participant(row: Row, actor: Option<AgentId>) {
    actor == Some(row.buyer) || actor == Some(row.seller)
  }

  function ReleaseRow(row: Row, env: Env, actor: Option<AgentId>, now: int): Result<Row, Error> {
    if !Participant(row, actor) then Err(NotParticipant)
    else if row.status != Held then Err(WrongStatus)
    else if row.task.Some? && (row.task.value !in env.tasks || !env.tasks[row.task.value].succeeded)
        then Err(TaskNotSuccessful)
    else Ok(row.(status := Released, settledAt := Some(now)))
  }

  /** Who acts and when, as printed into the metadata; no actor is the empty text. */
  datatype Stamp = Stamp(actor: string, time: string)

  function DisputeRow(row: Row, actor: Option<AgentId>, reason: string, stamp: Stamp): Result<Row, Error> {
    if !Participant(row, actor) then Err(NotParticipant)
    else if row.status != Held then Err(WrongStatus)
    else if Strip(reason) == "" then Err(ReasonRequired)
    else
      var reasoned := row.metadata["dispute_reason" := Strip(reason)];
      Ok(row.(status := Disputed,
              metadata := reasoned["disputed_by" := stamp.actor]["disputed_at" := stamp.time]))
  }

  function RefundRow(row: Row, reason: string, stamp: Stamp, now: int): Result<Row, Error> {
    if row.status != Held && row.status != Disputed then Err(WrongStatus)
    else if Strip(reason) == "" then Err(ReasonRequired)
    else
      var reasoned := row.metadata["refund_reason" := Strip(reason)];
      var named := if stamp.actor == "" then reasoned else reasoned["refunded_by" := stamp.actor];
      Ok(row.(status := Refunded, settledAt := Some(now), metadata := named["refunded_at" := stamp.time]))
  }

  datatype Settlement =
    | Release(env: Env, actor: Option<AgentId>, now: int)
    | Dispute(actor: Option<AgentId>, reason: string, stamp: Stamp)
    | Refund(reason: string, stamp: Stamp, now: int)

  function SettleRow(row: Row, x: Settlement): Result<Row, Error> {
    match x
    case Release(env, actor, now) => ReleaseRow(row, env, actor, now)
    case Dispute(actor, reason, stamp) => DisputeRow(row, actor, reason, stamp)
    case Refund(reason, stamp, now) => RefundRow(row, reason, stamp, now)
  }

  function SettleSpec(rows: Ledger, id: EscrowId, x: Settlement): Result<Ledger, Error> {
    var i := FindId(rows, id);
    if i == |rows| then Err(EscrowNotFound)
    else
      match SettleRow(rows[i], x)
      case Err(e) => Err(e)
      case Ok(row) => Ok(rows[i := row])
  }

  /** What never changes about a row. */
  predicate SameDeal(a: Row, b: Row) {
    && a.id == b.id && a.listing == b.listing && a.buyer == b.buyer && a.seller == b.seller
    && a.task == b.task && a.amount == b.amount && a.currency == b.currency && a.key == b.key
  }

  /* ---------- what the transactions admit ---------- */

  predicate IsCurrency(s: string) {
    1 <= |s| <= 12 && forall c :: c in s ==> c in CAPITAL || c in "0123456789"
  }

  /** When a request to create an escrow has a certain fault, whatever else is wrong with it. */
  predicate Fault(env: Env, q: Request, e: Error) {
    match e
    case InvalidBuyer => q.buyer.None?
    case AmountNotPositive => !(q.amount > 0.0)
    case InvalidCurrency => !IsCurrency(Normalized(q.currency))
    case ListingNotFound => q.listing !in env.listings
    case OwnListing => q.listing in env.listings && q.buyer == Some(env.listings[q.listing])
    case TaskNotFound => q.task.Some? && q.task.value !in env.tasks
    case ParticipantsMismatch =>
      q.task.Some? && q.task.value in env.tasks && q.listing in env.listings
        && (Some(env.tasks[q.task.value].sender), env.tasks[q.task.value].recipient)
             != (q.buyer, env.listings[q.listing])
    case _ => false
  }

  const FAULTS := [InvalidBuyer, AmountNotPositive, InvalidCurrency, ListingNotFound, OwnListing, TaskNotFound,
    ParticipantsMismatch]

  lemma LetterIff(c: char)
    ensures 'A' <= c <= 'Z' <==> c in CAPITAL
  {
    if 'A' <= c <= 'Z' {
      assert CAPITAL[c as int - 'A' as int] == c;
    }
  }

  lemma DigitIff(c: char)
    ensures '0' <= c <= '9' <==> c in "0123456789"
  {
    if '0' <= c <= '9' {
      assert "0123456789"[c as int - '0' as int] == c;
    }
  }

  lemma AlphanumericIff(s: string)
    ensures IsCurrency(s) <==> s != "" && |s| <= MAX_CURRENCY && Alphanumeric(s)
  {
    forall i | 0 <= i < |s|
      ensures '0' <= s[i] <= '9' || 'A' <= s[i] <= 'Z' <==> s[i] in CAPITAL || s[i] in "0123456789"
    {
      LetterIff(s[i]);
      DigitIff(s[i]);
    }
    if forall c :: c in s ==> c in CAPITAL || c in "0123456789" {
      assert forall i :: 0 <= i < |s| ==> s[i] in s;
    }
  }

  /** A request is refused for the first fault in the order above, and only for a fault. */
  lemma PrecheckIsFirstFault(env: Env, q: Request, i: nat)
    requires i < |FAULTS|
    ensures Precheck(env, q) == Some(FAULTS[i])
       <==> Fault(env, q, FAULTS[i]) && forall j :: 0 <= j < i ==> !Fault(env, q, FAULTS[j])
    ensures Precheck(env, q).None? <==> forall j :: 0 <= j < |FAULTS| ==> !Fault(env, q, FAULTS[j])
  {
    AlphanumericIff(Normalized(q.currency));
    assert FAULTS[0] == InvalidBuyer && FAULTS[1] == AmountNotPositive && FAULTS[2] == InvalidCurrency;
    assert FAULTS[3] == ListingNotFound && FAULTS[4] == OwnListing && FAULTS[5] == TaskNotFound;
    assert FAULTS[6] == ParticipantsMismatch;
  }

  /** The table takes a new row: the amount fits its column, and id, task and key are new. */
  predicate Fits(rows: Ledger, q: Request, id: EscrowId) {
    && 0.0 < StoredAmount(q.amount) < 1000000000000.0
    && forall i :: 0 <= i < |rows| ==>
         rows[i].id != id && (q.task.Some? ==> rows[i].task != q.task) && (q.key.Some? ==> rows[i].key != q.key)
  }

  /** What a creation answers: without a fault, the row of a non-empty key that is already there, if it
      agrees in buyer, listing, amount and currency, and otherwise a new held row at the end. */
  lemma CreationAnswers(rows: Ledger, env: Env, q: Request, id: EscrowId)
    requires Precheck(env, q).None?
    ensures var known := q.key.Some? && |q.key.value| > 0 && exists i :: 0 <= i < |rows| && rows[i].key == q.key;
      && (known ==>
            exists i :: 0 <= i < |rows| && rows[i].key == q.key && (forall j :: 0 <= j < i ==> rows[j].key != q.key)
              && CreateSpec(rows, env, q, id)
                   == if q.buyer == Some(rows[i].buyer) && q.listing == rows[i].listing && q.amount == rows[i].amount
                         && Normalized(q.currency) == rows[i].currency
                      then Ok(Created(rows, rows[i])) else Err(KeyTaken))
      && (!known ==>
            var row := Row(id, q.listing, q.buyer.value, env.listings[q.listing], q.task, StoredAmount(q.amount),
                           Normalized(q.currency), q.key, Held, None, q.metadata);
            CreateSpec(rows, env, q, id)
              == if Fits(rows, q, id) then Ok(Created(rows + [row], row)) else Err(ConstraintViolation))
  {
    if q.key.Some? && |q.key.value| > 0 && exists i :: 0 <= i < |rows| && rows[i].key == q.key {
      var k := FindKey(rows, q.key.value);
      assert k < |rows| && rows[k].key == q.key;
    }
  }

  /** Work that allows a release: none is bound to the row, or the bound task succeeded. */
  predicate WorkDone(row: Row, env: Env) {
    row.task.Some? ==> row.task.value in env.tasks && env.tasks[row.task.value].succeeded
  }

  predicate Party(row: Row, actor: Option<AgentId>) {
    actor.Some? && actor.value in {row.buyer, row.seller}
  }

  /** When each of the three settlements goes through. */
  predicate GoesThrough(row: Row, x: Settlement) {
    match x
    case Release(env, actor, _) => row.status == Held && Party(row, actor) && WorkDone(row, env)
    case Dispute(actor, reason, _) => row.status == Held && Party(row, actor) && !AllBlank(reason)
    case Refund(reason, _, _) => row.status in {Held, Disputed} && !AllBlank(reason)
  }

  function Goal(x: Settlement): Status {
    match x
    case Release(_, _, _) => Released
    case Dispute(_, _, _) => Disputed
    case Refund(_, _, _) => Refunded
  }

  /** What a settlement does to a row: it goes through exactly under the conditions above, and then sets
      the status, for a release and a refund the time, and for a dispute and a refund its metadata
      entries, with the stripped reason; nothing else about the row changes. */
  lemma SettleRowIff(row: Row, x: Settlement)
    ensures SettleRow(row, x).Ok? <==> GoesThrough(row, x)
    ensures SettleRow(row, x).Ok? ==>
              var after := SettleRow(row, x).value;
              && SameDeal(row, after) && after.status == Goal(x)
              && (x.Release? ==> after.settledAt == Some(x.now) && after.metadata == row.metadata)
              && (x.Dispute? ==>
                    && after.settledAt == row.settledAt
                    && after.metadata - {"dispute_reason", "disputed_by", "disputed_at"}
                         == row.metadata - {"dispute_reason", "disputed_by", "disputed_at"}
                    && {"dispute_reason", "disputed_by", "disputed_at"} <= after.metadata.Keys
                    && after.metadata["dispute_reason"] == Strip(x.reason)
                    && after.metadata["disputed_by"] == x.stamp.actor
                    && after.metadata["disputed_at"] == x.stamp.time)
              && (x.Refund? ==>
                    && after.settledAt == Some(x.now)
                    && after.metadata - {"refund_reason", "refunded_by", "refunded_at"}
                         == row.metadata - {"refund_reason", "refunded_by", "refunded_at"}
                    && {"refund_reason", "refunded_at"} <= after.metadata.Keys
                    && after.metadata["refund_reason"] == Strip(x.reason)
                    && after.metadata["refunded_at"] == x.stamp.time
                    && (x.stamp.actor != "" ==>
                          "refunded_by" in after.metadata && after.metadata["refunded_by"] == x.stamp.actor)
                    && (x.stamp.actor == "" ==>
                          ("refunded_by" in after.metadata <==> "refunded_by" in row.metadata)
                            && ("refunded_by" in row.metadata ==>
                                  after.metadata["refunded_by"] == row.metadata["refunded_by"])))
  {
    if x.Dispute? || x.Refund? {
      StripEmptyIff(x.reason);
    }
  }

  /** Why a settlement of a row is refused: a party is asked for first, then the status, then the work
      done or the reason. */
  lemma SettleRowRefused(row: Row, x: Settlement)
    requires !GoesThrough(row, x)
    ensures SettleRow(row, x)
         == Err(if !x.Refund? && !Party(row, x.actor) then NotParticipant
                else if row.status != Held && !(x.Refund? && row.status == Disputed) then WrongStatus
                else if x.Release? then TaskNotSuccessful
                else ReasonRequired)
  {
    if x.Dispute? || x.Refund? {
      StripEmptyIff(x.reason);
    }
  }

  /** Which row a settlement is for: the first with the id, and only that row changes; without one the
      escrow is not found. */
  lemma SettlementAnswers(rows: Ledger, id: EscrowId, x: Settlement, i: nat)
    requires i <= |rows| && (i < |rows| ==> rows[i].id == id) && forall j :: 0 <= j < i ==> rows[j].id != id
    ensures i == |rows| ==> SettleSpec(rows, id, x) == Err(EscrowNotFound)
    ensures i < |rows| ==>
              match SettleSpec(rows, id, x)
              case Ok(after) =>
                |after| == |rows| && after == rows[i := after[i]]
                  && GoesThrough(rows[i], x) && SettleRow(rows[i], x) == Ok(after[i])
              case Err(e) => !GoesThrough(rows[i], x) && SettleRow(rows[i], x) == Err(e)
  {
    FindIdUnique(rows, id, i);
    if i < |rows| {
      SettleRowIff(rows[i], x);
    }
  }

  /* ---------- the service ---------- */

  class Marketplace {
    var rows: Ledger

    constructor ()
      ensures rows == []
    {
      rows := [];
    }

    method LoadEscrow(id: EscrowId) returns (i: nat)
      ensures i == FindId(rows, id)
    {
      i := 0;
      while i < |rows| && rows[i].id != id
        invariant 0 <= i <= |rows| && forall j :: 0 <= j < i ==> rows[j].id != id
      {
        i := i + 1;
      }
      FindIdUnique(rows, id, i);
    }

    method CreateEscrow(env: Env, q: Request, id: EscrowId) returns (r: Result<Row, Error>)
      modifies this
      ensures match CreateSpec(old(rows), env, q, id)
        case Ok(c) => r == Ok(c.row) && rows == c.rows
        case Err(e) => r == Err(e) && rows == old(rows)
    {
      if q.buyer.None? {
        return Err(InvalidBuyer);
      }
      if q.amount <= 0.0 {
        return Err(AmountNotPositive);
      }
      var currency := Upper(Strip(q.currency));
      if currency == "" || |currency| > MAX_CURRENCY || !Alphanumeric(currency) {
        return Err(InvalidCurrency);
      }
      if q.listing !in env.listings {
        return Err(ListingNotFound);
      }
      var seller := env.listings[q.listing];
      if seller == q.buyer.value {
        return Err(OwnListing);
      }
      if q.task.Some? {
        if q.task.value !in env.tasks {
          return Err(TaskNotFound);
        }
        var task := env.tasks[q.task.value];
        if task.sender != q.buyer.value || task.recipient != seller {
          return Err(ParticipantsMismatch);
        }
      }
      if HasKey(q) {
        var i := FindKey(rows, q.key.value);
        if i < |rows| {
          var existing := rows[i];
          if existing.buyer != q.buyer.value || existing.listing != q.listing || existing.amount != q.amount
              || existing.currency != currency {
            return Err(KeyTaken);
          }
          return Ok(existing);
        }
      }
      var row := Row(id, q.listing, q.buyer.value, seller, q.task, StoredAmount(q.amount), currency, q.key, Held, None,
          q.metadata);
      if !Insertable(rows, row) {
        return Err(ConstraintViolation);
      }
      rows := rows + [row];
      r := Ok(row);
    }

    method ReleaseEscrow(id: EscrowId, env: Env, actor: Option<AgentId>, now: int) returns (r: Result<Row, Error>)
      modifies this
      ensures match SettleSpec(old(rows), id, Release(env, actor, now))
        case Ok(after) => r == Ok(after[FindId(old(rows), id)]) && rows == after
        case Err(e) => r == Err(e) && rows == old(rows)
    {
      var i := LoadEscrow(id);
      if i == |rows| {
        return Err(EscrowNotFound);
      }
      var row := rows[i];
      if actor.None? || (actor.value != row.buyer && actor.value != row.seller) {
        return Err(NotParticipant);
      }
      if row.status != Held {
        return Err(WrongStatus);
      }
      if row.task.Some? {
        if row.task.value !in env.tasks || !env.tasks[row.task.value].succeeded {
          return Err(TaskNotSuccessful);
        }
      }
      row := row.(status := Released);
      row := row.(settledAt := Some(now));
      rows := rows[i := row];
      r := Ok(row);
    }

    method DisputeEscrow(id: EscrowId, actor: Option<AgentId>, reason: string, stamp: Stamp)
      returns (r: Result<Row, Error>)
      modifies this
      ensures match SettleSpec(old(rows), id, Dispute(actor, reason, stamp))
        case Ok(after) => r == Ok(after[FindId(old(rows), id)]) && rows == after
        case Err(e) => r == Err(e) && rows == old(rows)
    {
      var i := LoadEscrow(id);
      if i == |rows| {
        return Err(EscrowNotFound);
      }
      var row := rows[i];
      if actor.None? || (actor.value != row.buyer && actor.value != row.seller) {
        return Err(NotParticipant);
      }
      if row.status != Held {
        return Err(WrongStatus);
      }
      var cleanReason := Strip(reason);
      if cleanReason == "" {
        return Err(ReasonRequired);
      }
      row := row.(status := Disputed);
      var metadata := row.metadata;
      metadata := metadata["dispute_reason" := cleanReason];
      metadata := metadata["disputed_by" := stamp.actor];
      metadata := metadata["disputed_at" := stamp.time];
      row := row.(metadata := metadata);
      rows := rows[i := row];
      r := Ok(row);
    }

    method RefundEscrow(id: EscrowId, reason: string, stamp: Stamp, now: int) returns (r: Result<Row, Error>)
      modifies this
      ensures match SettleSpec(old(rows), id, Refund(reason, stamp, now))
        case Ok(after) => r == Ok(after[FindId(old(rows), id)]) && rows == after
        case Err(e) => r == Err(e) && rows == old(rows)
    {
      var i := LoadEscrow(id);
      if i == |rows| {
        return Err(EscrowNotFound);
      }
      var row := rows[i];
      if row.status !in {Held, Disputed} {
        return Err(WrongStatus);
      }
      var cleanReason := Strip(reason);
      if cleanReason == "" {
        return Err(ReasonRequired);
      }
      row := row.(status := Refunded);
      row := row.(settledAt := Some(now));
      var metadata := row.metadata;
      metadata := metadata["refund_reason" := cleanReason];
      if stamp.actor != "" {
        metadata := metadata["refunded_by" := stamp.actor];
      }
      metadata := metadata["refunded_at" := stamp.time];
      row := row.(metadata := metadata);
      rows := rows[i := row];
      r := Ok(row);
    }
  }

  lemma FindIdUnique(rows: Ledger, id: EscrowId, i: nat)
    requires i <= |rows| && (i < |rows| ==> rows[i].id == id) && forall j :: 0 <= j < i ==> rows[j].id != id
    ensures FindId(rows, id) == i
  {
    var k := FindId(rows, id);
    assert !(k < i) && !(i < k);
  }

  /* ---------- runs ---------- */

  datatype Op =
    | Create(env: Env, request: Request, id: EscrowId)
    | Settle(id: EscrowId, settlement: Settlement)

  function Apply(rows: Ledger, op: Op): Ledger {
    match op
    case Create(env, q, id) => (match CreateSpec(rows, env, q, id) case Ok(c) => c.rows case Err(_) => rows)
    case Settle(id, x) => (match SettleSpec(rows, id, x) case Ok(after) => after case Err(_) => rows)
  }

  function Run(rows: Ledger, ops: seq<Op>): Ledger {
    if ops == [] then rows else Apply(Run(rows, ops[..|ops| - 1]), ops[|ops| - 1])
  }

  predicate Settled(s: Status) {
    s == Released || s == Refunded
  }

  ghost predicate RowInv(row: Row) {
    row.amount > 0.0 && row.buyer != row.seller && (row.settledAt.Some? <==> Settled(row.status))
  }

  ghost predicate Inv(rows: Ledger) {
    && (forall i :: 0 <= i < |rows| ==> RowInv(rows[i]))
    && (forall i, j :: 0 <= i < j < |rows| ==>
          && rows[i].id != rows[j].id
          && (rows[i].key.Some? ==> rows[i].key != rows[j].key)
          && (rows[i].task.Some? ==> rows[i].task != rows[j].task))
  }

  /** One row before and after: the deal stays, and a settled row stays altogether. */
  predicate RowEvolves(a: Row, b: Row) {
    SameDeal(a, b) && (Settled(a.status) ==> b == a)
        && (a.status == Disputed ==> b.status == Disputed || b.status == Refunded)
  }

  lemma SettleRowEvolves(row: Row, x: Settlement)
    ensures SettleRow(row, x).Ok? ==> RowEvolves(row, SettleRow(row, x).value) && !Settled(row.status)
    ensures SettleRow(row, x).Ok? && RowInv(row) ==> RowInv(SettleRow(row, x).value)
  {
  }

  ghost predicate Evolves(before: Ledger, after: Ledger) {
    |before| <= |after| && forall i :: 0 <= i < |before| ==> RowEvolves(before[i], after[i])
  }

  lemma ApplyEvolves(rows: Ledger, op: Op)
    requires Inv(rows)
    ensures Inv(Apply(rows, op)) && Evolves(rows, Apply(rows, op))
  {
    match op {
      case Create(env, q, id) =>
      case Settle(id, x) =>
        var i := FindId(rows, id);
        if i < |rows| {
          SettleRowEvolves(rows[i], x);
          var after := Apply(rows, op);
          assert forall j :: 0 <= j < |rows| && j != i ==> after[j] == rows[j];
          assert forall j :: 0 <= j < |rows| ==> SameDeal(rows[j], after[j]);
        }
    }
  }

  lemma {:induction false} RunEvolves(rows: Ledger, ops: seq<Op>)
    requires Inv(rows)
    ensures Inv(Run(rows, ops)) && Evolves(rows, Run(rows, ops))
  {
    if ops != [] {
      var before := Run(rows, ops[..|ops| - 1]);
      RunEvolves(rows, ops[..|ops| - 1]);
      ApplyEvolves(before, ops[|ops| - 1]);
      var after := Run(rows, ops);
      assert forall i :: 0 <= i < |rows| ==> RowEvolves(rows[i], before[i]) && RowEvolves(before[i], after[i]);
    }
  }

  /** Over every run, amounts, parties, currency and key of a row never change, a settled row never
      changes again, so it settles at most once, and the settlement time is set exactly on
      released and refunded rows. */
  lemma RowsOverRuns(ops1: seq<Op>, ops2: seq<Op>, i: nat)
    requires i < |Run([], ops1)|
    ensures var before, after := Run([], ops1), Run([], ops1 + ops2);
      && i < |after| && SameDeal(before[i], after[i])
      && (Settled(before[i].status) ==> after[i] == before[i])
      && (after[i].settledAt.Some? <==> Settled(after[i].status))
  {
    RunEvolves([], ops1);
    RunEvolves(Run([], ops1), ops2);
    RunConcat([], ops1, ops2);
    assert RowInv(Run([], ops1 + ops2)[i]);
  }

  lemma {:induction false} RunConcat(rows: Ledger, ops1: seq<Op>, ops2: seq<Op>)
    ensures Run(rows, ops1 + ops2) == Run(Run(rows, ops1), ops2)
  {
    if ops2 == [] {
      assert ops1 + ops2 == ops1;
    } else {
      var last := |ops2| - 1;
      RunConcat(rows, ops1, ops2[..last]);
      assert (ops1 + ops2)[..|ops1 + ops2| - 1] == ops1 + ops2[..last];
    }
  }

  /* ---------- how rows come to their status ---------- */

  /** A call of the run that settles row `i` of its ledger and goes through. */
  predicate SettlesRow(rows: Ledger, op: Op, i: nat, status: Status)
    requires i < |rows|
  {
    op.Settle? && op.id == rows[i].id && GoesThrough(rows[i], op.settlement) && Goal(op.settlement) == status
  }

  lemma {:induction false} RowsGrow(ops: seq<Op>, j: nat)
    requires j <= |ops|
    ensures Inv(Run([], ops[..j])) && Evolves(Run([], ops[..j]), Run([], ops))
  {
    assert ops == ops[..j] + ops[j..];
    RunEvolves([], ops[..j]);
    RunEvolves(Run([], ops[..j]), ops[j..]);
    RunConcat([], ops[..j], ops[j..]);
  }

  lemma StatusAfter(rows: Ledger, op: Op, i: nat)
    requires Inv(rows) && i < |rows|
    ensures i < |Apply(rows, op)|
    ensures forall status :: SettlesRow(rows, op, i, status) ==> Apply(rows, op)[i].status == status
    ensures (forall status :: !SettlesRow(rows, op, i, status)) ==> Apply(rows, op)[i].status == rows[i].status
  {
    ApplyEvolves(rows, op);
    if op.Settle? {
      var k := FindId(rows, op.id);
      if k < |rows| {
        SettleRowIff(rows[k], op.settlement);
        if op.id == rows[i].id {
          assert k == i;
          assert GoesThrough(rows[i], op.settlement) ==> SettlesRow(rows, op, i, Goal(op.settlement));
        }
      }
    }
  }

  ghost predicate WasSettled(ops: seq<Op>, i: nat, status: Status) {
    exists j :: 0 <= j < |ops| && i < |Run([], ops[..j])| && SettlesRow(Run([], ops[..j]), ops[j], i, status)
  }

  lemma PrefixesSnoc(init: seq<Op>, op: Op)
    ensures var all := init + [op];
      && (forall j :: 0 <= j < |init| ==> all[..j] == init[..j] && all[j] == init[j])
      && all[..|init|] == init && all[|init|] == op && |all| == |init| + 1
  {
  }

  lemma WasSettledSnoc(init: seq<Op>, op: Op, i: nat, status: Status)
    ensures WasSettled(init + [op], i, status)
       <==> WasSettled(init, i, status) || (i < |Run([], init)| && SettlesRow(Run([], init), op, i, status))
  {
    PrefixesSnoc(init, op);
  }

  lemma NotThereYet(ops: seq<Op>, i: nat, status: Status)
    requires i >= |Run([], ops)|
    ensures !WasSettled(ops, i, status)
  {
    forall j | 0 <= j < |ops|
      ensures |Run([], ops[..j])| <= i
    {
      RowsGrow(ops, j);
    }
  }

  lemma NewRowIsHeld(rows: Ledger, op: Op, i: nat)
    requires |rows| <= i < |Apply(rows, op)|
    ensures Apply(rows, op)[i].status == Held
  {
  }

  /** How a row comes to its status, over every run: it is released if and only if some call released it,
      refunded if and only if some call refunded it, disputed if and only if some call disputed it and
      none refunded it, and otherwise held; each such call met the conditions for it when it came. */
  lemma {:induction false} StatusIff(ops: seq<Op>, i: nat)
    requires i < |Run([], ops)|
    ensures var status := Run([], ops)[i].status;
      && (status == Released <==> WasSettled(ops, i, Released))
      && (status == Refunded <==> WasSettled(ops, i, Refunded))
      && (status == Disputed <==> WasSettled(ops, i, Disputed) && !WasSettled(ops, i, Refunded))
      && (status == Held <==> forall st :: !WasSettled(ops, i, st))
    decreases |ops|
  {
    if ops != [] {
      var init, op := ops[..|ops| - 1], ops[|ops| - 1];
      var rows := Run([], init);
      assert ops == init + [op];
      forall st
        ensures WasSettled(ops, i, st) <==> WasSettled(init, i, st) || (i < |rows| && SettlesRow(rows, op, i, st))
      {
        WasSettledSnoc(init, op, i, st);
      }
      if i < |rows| {
        StatusIff(init, i);
        RunEvolves([], init);
        StatusAfter(rows, op, i);
      } else {
        forall st
          ensures !WasSettled(init, i, st)
        {
          NotThereYet(init, i, st);
        }
        NewRowIsHeld(rows, op, i);
      }
    }
  }

  /* ---------- conservation ---------- */

  /** The amounts of one currency in one status. */
  function Amounts(rows: Ledger, currency: string, status: Status): real {
    if rows == [] then 0.0
    else
      var last := rows[|rows| - 1];
      Amounts(rows[..|rows| - 1], currency, status)
        + (if last.currency == currency && last.status == status then last.amount else 0.0)
  }

  function AllStatuses(rows: Ledger, currency: string): real {
    Amounts(rows, currency, Held) + Amounts(rows, currency, Disputed)
      + Amounts(rows, currency, Released) + Amounts(rows, currency, Refunded)
  }

  /** What an operation brings into the ledger: the amount of a row it creates. */
  function Deposit(rows: Ledger, op: Op, currency: string): real {
    match op
    case Settle(_, _) => 0.0
    case Create(env, q, id) =>
      match CreateSpec(rows, env, q, id)
      case Ok(c) => if |c.rows| > |rows| && c.row.currency == currency then c.row.amount else 0.0
      case Err(_) => 0.0
  }

  function TotalCreated(rows: Ledger, ops: seq<Op>, currency: string): real {
    if ops == [] then 0.0
    else TotalCreated(rows, ops[..|ops| - 1], currency) + Deposit(Run(rows, ops[..|ops| - 1]), ops[|ops| - 1], currency)
  }

  lemma {:induction false} AmountsUpdate(rows: Ledger, i: nat, row: Row, currency: string, status: Status)
    requires i < |rows|
    ensures Amounts(rows[i := row], currency, status) == Amounts(rows, currency, status)
      - (if rows[i].currency == currency && rows[i].status == status then rows[i].amount else 0.0)
      + (if row.currency == currency && row.status == status then row.amount else 0.0)
  {
    var last := |rows| - 1;
    if i < last {
      AmountsUpdate(rows[..last], i, row, currency, status);
      assert rows[i := row][..last] == rows[..last][i := row];
    } else {
      assert rows[i := row][..last] == rows[..last];
    }
  }

  lemma ApplyConserves(rows: Ledger, op: Op, currency: string)
    ensures AllStatuses(Apply(rows, op), currency) == AllStatuses(rows, currency) + Deposit(rows, op, currency)
  {
    match op {
      case Create(env, q, id) =>
        var r := CreateSpec(rows, env, q, id);
        if r.Ok? && r.value.rows != rows {
          assert r.value.rows[..|rows|] == rows;
        }
      case Settle(id, x) =>
        var i := FindId(rows, id);
        if i < |rows| && SettleRow(rows[i], x).Ok? {
          var row := SettleRow(rows[i], x).value;
          SettleRowEvolves(rows[i], x);
          AmountsUpdate(rows, i, row, currency, Held);
          AmountsUpdate(rows, i, row, currency, Disputed);
          AmountsUpdate(rows, i, row, currency, Released);
          AmountsUpdate(rows, i, row, currency, Refunded);
        }
    }
  }

  /** Conservation: over every run the amounts by status sum to the total created, per currency. */
  lemma {:induction false} Conservation(ops: seq<Op>, currency: string)
    ensures AllStatuses(Run([], ops), currency) == TotalCreated([], ops, currency)
  {
    if ops != [] {
      Conservation(ops[..|ops| - 1], currency);
      ApplyConserves(Run([], ops[..|ops| - 1]), ops[|ops| - 1], currency);
    }
  }

  /* ---------- idempotency ---------- */

  /** Over every run an idempotency key names at most one escrow. */
  lemma KeyNamesOneEscrow(ops: seq<Op>, i: nat, j: nat)
    requires i < |Run([], ops)| && j < |Run([], ops)|
    requires Run([], ops)[i].key.Some? && Run([], ops)[i].key == Run([], ops)[j].key
    ensures i == j
  {
    RunEvolves([], ops);
  }

  /** A repeat that finds the row of its key. */
  lemma RepeatAt(rows: Ledger, i: nat, env: Env, q: Request, id: EscrowId, env': Env, id': EscrowId)
    requires HasKey(q) && Precheck(env, q).None? && Precheck(env', q).None?
    requires i < |rows| && FindKey(rows, q.key.value) == i && SameDeal(NewRow(env, q, id), rows[i])
    ensures CreateSpec(rows, env', q, id')
         == if EightDecimals(q.amount) then Ok(Created(rows, rows[i])) else Err(KeyTaken)
  {
    StoredIffEightDecimals(q.amount);
  }

  /** Repeating a request that created an escrow under a key, after anything else has happened: it
      returns that escrow and changes nothing if and only if the amount has at most eight
      decimals; otherwise it is refused as if the key belonged to another escrow. */
  lemma RepeatReturnsExisting(ops: seq<Op>, env: Env, q: Request, id: EscrowId, later: seq<Op>, env': Env,
                              id': EscrowId)
    requires HasKey(q) && FindKey(Run([], ops), q.key.value) == |Run([], ops)|
    requires CreateSpec(Run([], ops), env, q, id).Ok? && Precheck(env', q).None?
    ensures var created := CreateSpec(Run([], ops), env, q, id).value;
      var rows := Run(created.rows, later);
      var i := |created.rows| - 1;
      && i < |rows| && SameDeal(created.row, rows[i])
      && (EightDecimals(q.amount) ==> CreateSpec(rows, env', q, id') == Ok(Created(rows, rows[i])))
      && (!EightDecimals(q.amount) ==> CreateSpec(rows, env', q, id') == Err(KeyTaken))
  {
    var before := Run([], ops);
    RunEvolves([], ops);
    ApplyEvolves(before, Create(env, q, id));
    var created := CreateSpec(before, env, q, id).value;
    assert created.row == NewRow(env, q, id) && created.rows == before + [created.row];
    RunEvolves(created.rows, later);
    var rows, i := Run(created.rows, later), |before|;
    assert RowEvolves(created.rows[i], rows[i]);
    assert FindKey(rows, q.key.value) == i by {
      assert rows[i].key == Some(q.key.value);
    }
    RepeatAt(rows, i, env, q, id, env', id');
  }

  const ENV := Env(map[0 := 2], map[])

  const NINE_DECIMALS := Request(Some(1), 0, 0.123456789, "USD", None, Some("key"), map[])

  lemma DollarsAreNormal()
    ensures Normalized("USD") == "USD" && Alphanumeric("USD")
  {
    assert Upper("D") == "D" && Upper("SD") == "SD";
  }

  /** An amount with nine decimals whose repeat is refused: the same request under one key creates
      an escrow with a rounded amount and then is told that the key belongs to another one. */
  lemma NineDecimalsAreNotRepeatable()
    ensures !EightDecimals(NINE_DECIMALS.amount)
    ensures match CreateSpec([], ENV, NINE_DECIMALS, 7)
      case Ok(c) => |c.rows| == 1 && c.row.amount == 0.12345679
          && CreateSpec(c.rows, ENV, NINE_DECIMALS, 8) == Err(KeyTaken)
      case Err(_) => false
  {
    assert 0.123456789 * SCALE == 12345678.9;
    DollarsAreNormal();
    var row := NewRow(ENV, NINE_DECIMALS, 7);
    assert CreateSpec([], ENV, NINE_DECIMALS, 7) == Ok(Created([] + [row], row));
    RepeatReturnsExisting([], ENV, NINE_DECIMALS, 7, [], ENV, 8);
  }
}
