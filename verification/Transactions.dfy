/** The transactions table: its rows, the five SQL statements that touch it, and the
    BEFORE UPDATE trigger that makes final states absorbing. */
module Transactions {
  import opened Common

  type TxId = string

  datatype Status = PENDING | QR_GENERATED | PAID | FAILED | EXPIRED | CANCELLED | REFUNDED

  /** The states the trigger lists. */
  predicate Final(s: Status) {
    s == PAID || s == FAILED || s == EXPIRED || s == CANCELLED || s == REFUNDED
  }

  datatype Row = Row(
    merchant: string,
    device: string,
    amount: int,
    status: Status,
    code: Option<string>,
    payload: Option<string>,
    reference: Option<string>,
    externalId: Option<string>,
    expireAt: Option<Time>,
    createdAt: Time,
    paidAt: Option<Time>,
    updatedAt: Time,
    nextQueryAt: Option<Time>)

  type Rows = map<TxId, Row>

  datatype Stmt =
    | Create(id: TxId, merchant: string, device: string, amount: int)
    | MarkFailed(id: TxId)
    | MarkQr(id: TxId, payload: string, reference: string, externalId: string, expireAt: Time, nextQueryAt: Time)
    | Claim(merchantFilter: Option<string>, interval: Time, batch: nat, picked: set<TxId>)
    | Transition(id: TxId, status: Status, code: Option<string>, paidAt: Option<Time>)

  /** What a statement answers: the returned row, or why there is none. */
  datatype DbResult = Returned(row: Row) | NoRows | UniqueViolation | CheckViolation | TriggerRaised

  /** SQL's COALESCE on two nullable columns. */
  function Coalesce<T>(a: Option<T>, b: Option<T>): Option<T> {
    if a.Some? then a else b
  }

  /** The trigger: None when it raises, otherwise the row that is stored. */
  function Trigger(before: Row, after: Row, now: Time): Option<Row> {
    if Final(before.status) && after.status != before.status then None
    else Some(after.(updatedAt := now))
  }

  function Fresh(merchant: string, device: string, amount: int, now: Time): Row {
    Row(merchant, device, amount, PENDING, None, None, None, None, None, now, None, now, None)
  }

  /** UPDATE of one row through the trigger; a raise leaves the table as it was. */
  function Update(rows: Rows, id: TxId, after: Row, now: Time): Rows
    requires id in rows
  {
    var stored := Trigger(rows[id], after, now);
    if stored.Some? then rows[id := stored.value] else rows
  }

  // ----- ordering and selection of a claim ----------------------------------------------

  /** ORDER BY next_query_at NULLS FIRST. */
  predicate KeyLe(a: Option<Time>, b: Option<Time>) {
    a.None? || (b.Some? && a.value <= b.value)
  }

  predicate Due(row: Row, now: Time, filter: Option<string>) {
    && row.status == QR_GENERATED
    && (row.nextQueryAt.None? || row.nextQueryAt.value <= now)
    && (filter.None? || row.merchant == filter.value)
  }

  /** Every row the sub-select may order after `picked` really comes after it. */
  predicate Before(rows: Rows, picked: set<TxId>, id: TxId)
    requires id in rows && picked <= rows.Keys
  {
    forall p :: p in picked ==> KeyLe(rows[p].nextQueryAt, rows[id].nextQueryAt)
  }

  /** The sub-select of a claim: due rows only, at most `batch`, and a due row is left out
      only when `batch` rows at or before it were taken. Ties are broken freely. */
  predicate Selection(rows: Rows, now: Time, filter: Option<string>, batch: nat, picked: set<TxId>) {
    && picked <= rows.Keys
    && (forall p :: p in picked ==> Due(rows[p], now, filter))
    && |picked| <= batch
    && (forall id :: id in rows && id !in picked && Due(rows[id], now, filter)
          ==> |picked| == batch && Before(rows, picked, id))
  }

  /** The same, column by column: due rows of the filter's merchant, all of them or a full batch, and in the
      order of their next check. */
  lemma SelectionInColumns(rows: Rows, now: Time, filter: Option<string>, batch: nat, picked: set<TxId>)
    requires Selection(rows, now, filter, batch, picked)
    ensures picked <= rows.Keys && |picked| <= batch
    ensures forall id :: id in rows ==>
              var row := rows[id];
              var due := && row.status == QR_GENERATED && (filter == None || filter == Some(row.merchant))
                         && (row.nextQueryAt == None || row.nextQueryAt.value <= now);
              (id in picked ==> due) && (due && id !in picked ==> |picked| == batch)
    ensures forall id, p :: id in rows && id !in picked && p in picked && Due(rows[id], now, filter) ==>
              var a, b := rows[p].nextQueryAt, rows[id].nextQueryAt; a == None || (b != None && a.value <= b.value)
  {
    forall id, p | id in rows && id !in picked && p in picked && Due(rows[id], now, filter)
      ensures var a, b := rows[p].nextQueryAt, rows[id].nextQueryAt; a == None || (b != None && a.value <= b.value)
    {
      assert Before(rows, picked, id);
      assert KeyLe(rows[p].nextQueryAt, rows[id].nextQueryAt);
    }
    forall id | id in rows && id in picked ensures Due(rows[id], now, filter) { }
  }

  /** A statement is always allowed; a claim must carry the rows its sub-select yields. */
  predicate Enabled(rows: Rows, s: Stmt, now: Time) {
    s.Claim? ==> s.interval > 0 && Selection(rows, now, s.merchantFilter, s.batch, s.picked)
  }

  /** The table after one statement. */
  function Exec(rows: Rows, s: Stmt, now: Time): (after: Rows)
    requires Enabled(rows, s, now)
  {
    match s
    case Create(id, merchant, device, amount) =>
      if id in rows || amount <= 0 then rows else rows[id := Fresh(merchant, device, amount, now)]
    case MarkFailed(id) =>
      if id !in rows then rows else Update(rows, id, rows[id].(status := FAILED), now)
    case MarkQr(id, payload, reference, externalId, expireAt, nextQueryAt) =>
      if id !in rows then rows
      else Update(rows, id, rows[id].(status := QR_GENERATED, payload := Some(payload),
                                      reference := Some(reference), externalId := Some(externalId),
                                      expireAt := Some(expireAt), nextQueryAt := Some(nextQueryAt)), now)
    case Claim(filter, interval, batch, picked) =>
      map id | id in rows :: if id in picked
                             then rows[id].(nextQueryAt := Some(now + interval), updatedAt := now)
                             else rows[id]
    case Transition(id, status, code, paidAt) =>
      if id !in rows || rows[id].status != QR_GENERATED then rows
      else Update(rows, id, rows[id].(status := status, code := Coalesce(code, rows[id].code),
                                      paidAt := Coalesce(paidAt, rows[id].paidAt), nextQueryAt := None), now)
  }

  // ----- traces of statements -----------------------------------------------------------

  datatype Timed = Timed(now: Time, stmt: Stmt)

  /** A trace the database can execute from `rows`, its clock starting at or after `clock`. */
  predicate Executable(rows: Rows, clock: Time, trace: seq<Timed>)
    decreases |trace|
  {
    trace == [] ||
    (&& clock <= trace[0].now
     && Enabled(rows, trace[0].stmt, trace[0].now)
     && Executable(Exec(rows, trace[0].stmt, trace[0].now), trace[0].now, trace[1..]))
  }

  function ExecAll(rows: Rows, clock: Time, trace: seq<Timed>): (after: Rows)
    requires Executable(rows, clock, trace)
    decreases |trace|
  {
    if trace == [] then rows
    else ExecAll(Exec(rows, trace[0].stmt, trace[0].now), trace[0].now, trace[1..])
  }

  // ----- what every statement keeps -----------------------------------------------------

  /** Whatever statement arrives, in whatever order, a row in a final state keeps every column
      except updated_at, and no row ever changes owner, device, amount or creation time. */
  lemma StatementKeeps(rows: Rows, s: Stmt, now: Time, id: TxId)
    requires Enabled(rows, s, now) && id in rows
    ensures id in Exec(rows, s, now)
    ensures var a, b := rows[id], Exec(rows, s, now)[id];
            && a.merchant == b.merchant && a.device == b.device && a.amount == b.amount && a.createdAt == b.createdAt
            && (Final(a.status) ==> b == a.(updatedAt := b.updatedAt))
  {
    if s.Claim? && id in s.picked {
      assert Due(rows[id], now, s.merchantFilter);
    }
  }

  /** The same over any executable trace, however long and however undisciplined. */
  lemma {:induction false} FinalRowsAbsorb(rows: Rows, clock: Time, trace: seq<Timed>, id: TxId)
    requires Executable(rows, clock, trace) && id in rows
    ensures id in ExecAll(rows, clock, trace)
    ensures var a, b := rows[id], ExecAll(rows, clock, trace)[id];
            && a.merchant == b.merchant && a.device == b.device && a.amount == b.amount && a.createdAt == b.createdAt
            && (Final(a.status) ==> b == a.(updatedAt := b.updatedAt))
    decreases |trace|
  {
    if trace != [] {
      StatementKeeps(rows, trace[0].stmt, trace[0].now, id);
      FinalRowsAbsorb(Exec(rows, trace[0].stmt, trace[0].now), trace[0].now, trace[1..], id);
    }
  }

  // ----- the table as the service sees it -----------------------------------------------

  /** A non-empty set of rows has a first one in NULLS FIRST order. */
  lemma FirstExists(rows: Rows, c: set<TxId>)
    requires c != {} && c <= rows.Keys
    ensures exists f :: f in c && forall x :: x in c ==> KeyLe(rows[f].nextQueryAt, rows[x].nextQueryAt)
    decreases |c|
  {
    var a :| a in c;
    if c != {a} {
      var rest := c - {a};
      FirstExists(rows, rest);
      var f :| f in rest && forall x :: x in rest ==> KeyLe(rows[f].nextQueryAt, rows[x].nextQueryAt);
      var g := if KeyLe(rows[f].nextQueryAt, rows[a].nextQueryAt) then f else a;
      assert forall x :: x in c ==> KeyLe(rows[g].nextQueryAt, rows[x].nextQueryAt) by {
        forall x | x in c ensures KeyLe(rows[g].nextQueryAt, rows[x].nextQueryAt) {
          assert x == a || x in rest;
        }
      }
    } else {
      assert forall x :: x in c ==> x == a;
    }
  }

  /** Everything picked comes before everything left. */
  predicate Front(rows: Rows, picked: set<TxId>, left: set<TxId>)
    requires picked <= rows.Keys && left <= rows.Keys
  {
    forall id :: id in left ==> Before(rows, picked, id)
  }

  lemma FrontAdvances(rows: Rows, picked: set<TxId>, left: set<TxId>, first: TxId)
    requires picked <= rows.Keys && left <= rows.Keys && Front(rows, picked, left)
    requires first in left && forall x :: x in left ==> KeyLe(rows[first].nextQueryAt, rows[x].nextQueryAt)
    ensures Front(rows, picked + {first}, left - {first})
  {
    forall id | id in left - {first} ensures Before(rows, picked + {first}, id) {
      assert Before(rows, picked, id);
    }
  }

  lemma FrontIsSelection(rows: Rows, now: Time, filter: Option<string>, batch: nat, picked: set<TxId>, left: set<TxId>)
    requires picked <= rows.Keys && left <= rows.Keys && Front(rows, picked, left)
    requires |picked| <= batch && (left != {} ==> |picked| == batch)
    requires forall id :: id in picked + left <==> id in rows && Due(rows[id], now, filter)
    ensures Selection(rows, now, filter, batch, picked)
  {
    forall p | p in picked ensures Due(rows[p], now, filter) {
      assert p in picked + left;
    }
    forall id | id in rows && id !in picked && Due(rows[id], now, filter)
      ensures |picked| == batch && Before(rows, picked, id)
    {
      assert id in picked + left;
    }
  }

  /** ORDER BY ... LIMIT: takes a first remaining due row until the batch is full. */
  method SelectDue(rows: Rows, now: Time, filter: Option<string>, batch: nat) returns (picked: set<TxId>)
    ensures Selection(rows, now, filter, batch, picked)
  {
    var left := set id | id in rows && Due(rows[id], now, filter);
    ghost var due := left;
    picked := {};
    while |picked| < batch && left != {}
      invariant picked <= rows.Keys && left <= rows.Keys && Front(rows, picked, left)
      invariant picked + left == due && |picked| <= batch
      decreases left
    {
      FirstExists(rows, left);
      var first :| first in left && forall x :: x in left ==> KeyLe(rows[first].nextQueryAt, rows[x].nextQueryAt);
      FrontAdvances(rows, picked, left, first);
      picked, left := picked + {first}, left - {first};
    }
    FrontIsSelection(rows, now, filter, batch, picked, left);
  }

  class Table {
    var rows: Rows

    constructor ()
      ensures rows == map[]
    {
      rows := map[];
    }

    /** INSERT ... VALUES (..., 'PENDING'): transaction_id is unique and amount is checked > 0. */
    method CreateTransaction(id: TxId, merchant: string, device: string, amount: int, now: Time) returns (r: DbResult)
      modifies this
      ensures rows == Exec(old(rows), Create(id, merchant, device, amount), now)
      ensures r.Returned? <==> id !in old(rows) && amount > 0
      ensures r.Returned? ==> id in rows && r.row == rows[id] && r.row.status == PENDING
      ensures r.UniqueViolation? <==> id in old(rows) && amount > 0
      ensures r.CheckViolation? <==> amount <= 0
    {
      if amount <= 0 { return CheckViolation; }
      if id in rows { return UniqueViolation; }
      rows := rows[id := Fresh(merchant, device, amount, now)];
      r := Returned(rows[id]);
    }

    /** One row written through the trigger. */
    method WriteRow(id: TxId, after: Row, now: Time) returns (r: DbResult)
      requires id in rows
      modifies this
      ensures rows == Update(old(rows), id, after, now)
      ensures r.TriggerRaised? <==> Final(old(rows)[id].status) && after.status != old(rows)[id].status
      ensures r.Returned? <==> !r.TriggerRaised?
      ensures r.Returned? ==> r.row == rows[id] == after.(updatedAt := now)
    {
      if Final(rows[id].status) && after.status != rows[id].status { return TriggerRaised; }
      rows := rows[id := after.(updatedAt := now)];
      r := Returned(rows[id]);
    }

    method MarkTransactionFailed(id: TxId, now: Time) returns (r: DbResult)
      modifies this
      ensures rows == Exec(old(rows), MarkFailed(id), now)
      ensures r.NoRows? <==> id !in old(rows)
      ensures r.Returned? ==> id in rows && r.row == rows[id] && r.row.status == FAILED
    {
      if id !in rows { return NoRows; }
      r := WriteRow(id, rows[id].(status := FAILED), now);
    }

    method MarkTransactionQRGenerated(id: TxId, payload: string, reference: string, externalId: string,
                                      expireAt: Time, nextQueryAt: Time, now: Time) returns (r: DbResult)
      modifies this
      ensures rows == Exec(old(rows), MarkQr(id, payload, reference, externalId, expireAt, nextQueryAt), now)
      ensures r.NoRows? <==> id !in old(rows)
      ensures r.TriggerRaised? <==> id in old(rows) && Final(old(rows)[id].status)
      ensures r.Returned? <==> !r.NoRows? && !r.TriggerRaised?
      ensures r.Returned? ==> id in rows && r.row == rows[id] && r.row.status == QR_GENERATED
    {
      if id !in rows { return NoRows; }
      r := WriteRow(id, rows[id].(status := QR_GENERATED, payload := Some(payload),
                                  reference := Some(reference), externalId := Some(externalId),
                                  expireAt := Some(expireAt), nextQueryAt := Some(nextQueryAt)), now);
    }

    /** The guarded UPDATE: it answers a row exactly when this call moved it out of QR_GENERATED. */
    method TransitionFromQRGenerated(id: TxId, status: Status, code: Option<string>, paidAt: Option<Time>, now: Time)
      returns (r: DbResult)
      modifies this
      ensures rows == Exec(old(rows), Transition(id, status, code, paidAt), now)
      ensures r.Returned? <==> id in old(rows) && old(rows)[id].status == QR_GENERATED
      ensures r.Returned? ==> id in rows && r.row == rows[id] && r.row.status == status
      ensures !r.Returned? ==> r == NoRows && rows == old(rows)
    {
      if id !in rows || rows[id].status != QR_GENERATED { return NoRows; }
      r := WriteRow(id, rows[id].(status := status, code := Coalesce(code, rows[id].code),
                                  paidAt := Coalesce(paidAt, rows[id].paidAt), nextQueryAt := None), now);
    }

    /** The due rows taken one by one from the front, and their next check pushed out. */
    method ClaimDueTransactions(interval: Time, filter: Option<string>, batch: nat, now: Time)
      returns (claimed: map<TxId, Row>)
      requires interval > 0
      modifies this
      ensures Selection(old(rows), now, filter, batch, claimed.Keys)
      ensures rows == Exec(old(rows), Claim(filter, interval, batch, claimed.Keys), now)
      ensures forall id :: id in claimed ==> id in rows && claimed[id] == rows[id]
      ensures rows.Keys == old(rows).Keys
      ensures forall id :: id in old(rows) && id !in claimed ==> rows[id] == old(rows)[id]
      ensures forall id :: id in claimed ==> rows[id]
                                             == old(rows)[id].(nextQueryAt := Some(now + interval), updatedAt := now)
    {
      hide Due, Before;
      var picked := SelectDue(rows, now, filter, batch);
      rows := map id | id in rows :: if id in picked
                                     then rows[id].(nextQueryAt := Some(now + interval), updatedAt := now)
                                     else rows[id];
      claimed := map id | id in picked :: rows[id];
      assert claimed.Keys == picked;
    }
  }
}
