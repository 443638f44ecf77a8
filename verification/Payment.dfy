/** Service.CheckPayment: what one answer of Manjo means, and the guarded move it leads to. */
module Payment {
  import opened Common
  import opened Transactions

  const DEADLINE_GRACE: Time := 2 * MINUTE
  const FALLBACK_QR_VALIDITY: Time := 10 * MINUTE
  const EXPIRED_RESPONSE_CODE := "4035100"

  /** What happened to one qr-mpm-query call. A paidTime that does not parse is None. */
  datatype Answer =
    | TransportError
    | ApiError(httpStatus: int, responseCode: string)
    | Answered(latestStatus: string, paidTime: Option<Time>)

  /** How far the credentials lookup got before the call. */
  datatype Query = DeviceUnknown | ConfigBroken | Asked(manjoMerchant: string, answer: Answer)

  /** One outcome: no status means no transition; error marks a failed or unusable answer. */
  datatype Outcome = Outcome(status: Option<Status>, code: Option<string>, paidAt: Option<Time>, error: bool)

  const PENDING_ANSWER := Outcome(None, None, None, false)
  const UNUSABLE := Outcome(None, None, None, true)

  /** PaidAt is stored unless it is the zero time. */
  function StoredTime(t: Time): Option<Time> {
    if t == 0 then None else Some(t)
  }

  function MapQueryResult(a: Answer, now: Time): Outcome {
    match a
    case TransportError => UNUSABLE
    case ApiError(httpStatus, responseCode) =>
      if httpStatus == 403 && responseCode == EXPIRED_RESPONSE_CODE then Outcome(Some(EXPIRED), None, None, false)
      else UNUSABLE
    case Answered(latest, paidTime) =>
      if latest == "00" then
        Outcome(Some(PAID), Some("00"), StoredTime(if paidTime.Some? then paidTime.value else now), false)
      else if latest == "01" || latest == "02" || latest == "03" then PENDING_ANSWER
      else if latest == "04" then Outcome(Some(REFUNDED), Some("04"), None, false)
      else if latest == "05" then Outcome(Some(CANCELLED), Some("05"), None, false)
      else if latest == "06" then Outcome(Some(FAILED), Some("06"), None, false)
      else UNUSABLE
  }

  function QueryOutcome(q: Query, now: Time): Outcome {
    if q.Asked? then MapQueryResult(q.answer, now) else UNUSABLE
  }

  function ExpiryDeadline(tx: Row): Time {
    (if tx.expireAt.Some? then tx.expireAt.value else tx.createdAt + FALLBACK_QR_VALIDITY) + DEADLINE_GRACE
  }

  /** The transition a check asks for, if any: Manjo's final answer first, then the local deadline. */
  function Decide(tx: Row, q: Query, queriedAt: Time, now: Time): Outcome {
    var o := QueryOutcome(q, queriedAt);
    if o.status.None? && now > ExpiryDeadline(tx) then Outcome(Some(EXPIRED), None, None, false) else o
  }

  /** Manjo reported this status. */
  predicate Reports(q: Query, status: string) {
    q.Asked? && q.answer.Answered? && q.answer.latestStatus == status
  }

  /** Manjo refused the query because the QR has expired. */
  predicate RefusedAsExpired(q: Query) {
    q.Asked? && q.answer.ApiError? && q.answer.httpStatus == 403 && q.answer.responseCode == "4035100"
  }

  /** Manjo's answer is final when it closes the transaction. */
  predicate FinalAnswer(q: Query) {
    RefusedAsExpired(q) || Reports(q, "00") || Reports(q, "04") || Reports(q, "05") || Reports(q, "06")
  }

  /** Two minutes past the QR's expiry, or twelve past the row's creation when no expiry is stored. */
  predicate PastDeadline(tx: Row, now: Time) {
    now > if tx.expireAt.Some? then tx.expireAt.value + 120_000_000_000 else tx.createdAt + 720_000_000_000
  }

  /** The payment's time: Manjo's if it parsed, else the clock's after the query; the zero time is not stored. */
  predicate Dated(q: Query, queriedAt: Time, paidAt: Option<Time>)
    requires Reports(q, "00")
  {
    var t := if q.answer.paidTime.Some? then q.answer.paidTime.value else queriedAt;
    if t == 0 then paidAt.None? else paidAt == Some(t)
  }

  /** The query told nothing: it could not be made, it failed, or its answer is none of those Manjo documents. */
  predicate Unusable(q: Query) {
    !FinalAnswer(q) && !Reports(q, "01") && !Reports(q, "02") && !Reports(q, "03")
  }

  /** A check asks for no transition exactly while Manjo has no final answer and the deadline has not passed.
      Otherwise the status goes with the answer, "00" to PAID, "04" to REFUNDED, "05" to CANCELLED, "06" to
      FAILED, with that code; anything else to EXPIRED, without a code. */
  lemma DecideIsComplete(tx: Row, q: Query, queriedAt: Time, now: Time)
    ensures var o := Decide(tx, q, queriedAt, now);
            && (o.status.None? <==> !FinalAnswer(q) && !PastDeadline(tx, now))
            && (o.status == Some(PAID) <==> Reports(q, "00"))
            && (o.status == Some(REFUNDED) <==> Reports(q, "04"))
            && (o.status == Some(CANCELLED) <==> Reports(q, "05"))
            && (o.status == Some(FAILED) <==> Reports(q, "06"))
            && (o.status == Some(EXPIRED) <==> RefusedAsExpired(q) || (!FinalAnswer(q) && PastDeadline(tx, now)))
            && (o.status.Some? ==> Final(o.status.value) && !o.error)
            && o.code == (if o.status.Some? && o.status.value != EXPIRED then Some(q.answer.latestStatus) else None)
            && (if o.status == Some(PAID) then Dated(q, queriedAt, o.paidAt) else o.paidAt.None?)
            && (o.status.None? ==> (o.error <==> Unusable(q)))
  {
  }

  /** How one UPDATE can end for its caller. A lost commit took effect and reports an error. */
  datatype Fate = Committed | NotExecuted | CommitLost

  datatype Checked =
    | DbError
    | Checked(transitioned: bool, row: Row, expiredByDeadline: bool, queryError: bool, manjoMerchant: string)

  /** What the check has made of the row: status and code together, and the time of a payment. */
  predicate Settled(was: Row, row: Row, tx: Row, q: Query, queriedAt: Time, now: Time) {
    && (row.status == PAID <==> Reports(q, "00")) && (row.status == REFUNDED <==> Reports(q, "04"))
    && (row.status == CANCELLED <==> Reports(q, "05")) && (row.status == FAILED <==> Reports(q, "06"))
    && (row.status == EXPIRED <==> RefusedAsExpired(q) || (!FinalAnswer(q) && PastDeadline(tx, now)))
    && (Reports(q, "00") ==> row.code == Some("00")) && (Reports(q, "04") ==> row.code == Some("04"))
    && (Reports(q, "05") ==> row.code == Some("05")) && (Reports(q, "06") ==> row.code == Some("06"))
    && (row.status == EXPIRED ==> row.code == was.code)
    && (Reports(q, "00") ==> Dated(q, queriedAt, row.paidAt) || (row.paidAt == was.paidAt && Dated(q, queriedAt, None)))
    && (!Reports(q, "00") ==> row.paidAt == was.paidAt)
    && row.nextQueryAt.None?
  }

  /** One CheckPayment on a possibly stale copy `tx` of a row. `queriedAt` and `now` are the
      service's clock after the query and at the deadline test; `dbNow` is the database's. */
  method CheckPayment(table: Table, id: TxId, tx: Row, q: Query, queriedAt: Time, now: Time, dbNow: Time, fate: Fate)
    returns (r: Checked)
    modifies table
    ensures var o := Decide(tx, q, queriedAt, now);
            var was := old(table.rows);
            var moved := o.status.Some? && !fate.NotExecuted? && id in was && was[id].status == QR_GENERATED;
            && table.rows == (if o.status.Some? && !fate.NotExecuted?
                              then Exec(was, Transition(id, o.status.value, o.code, o.paidAt), dbNow) else was)
            && (r.DbError? <==> o.status.Some? && !fate.Committed?)
            && (r.Checked? ==> (r.transitioned <==> moved))
            && (r.Checked? && r.transitioned ==> id in table.rows && r.row == table.rows[id] && Final(r.row.status))
            && (r.Checked? && !r.transitioned ==> r.row == tx)
            && (r.Checked? && q.Asked? ==> r.manjoMerchant == q.manjoMerchant)
    ensures r.Checked? ==> (r.expiredByDeadline <==> !FinalAnswer(q) && PastDeadline(tx, now))
    ensures r.Checked? ==> (r.queryError <==> Unusable(q))
    ensures r.Checked? && (FinalAnswer(q) || PastDeadline(tx, now)) && id in table.rows ==>
              table.rows[id].status != QR_GENERATED
    ensures var was := old(table.rows);
            id in was && was[id].status == QR_GENERATED && id in table.rows && table.rows[id].status != QR_GENERATED ==>
              Settled(was[id], table.rows[id], tx, q, queriedAt, now)
  {
    DecideIsComplete(tx, q, queriedAt, now);
    var outcome := UNUSABLE;
    var merchant := "";
    if q.Asked? {
      outcome := MapQueryResult(q.answer, queriedAt);
      merchant := q.manjoMerchant;
    }
    var queryError := outcome.error;
    var byDeadline := false;
    if outcome.status.None? && now > ExpiryDeadline(tx) {
      outcome := Outcome(Some(EXPIRED), None, None, false);
      byDeadline := true;
    }
    if outcome.status.None? {
      return Checked(false, tx, byDeadline, queryError, merchant);
    }
    if fate.NotExecuted? { return DbError; }
    var answer := table.TransitionFromQRGenerated(id, outcome.status.value, outcome.code, outcome.paidAt, dbNow);
    if fate.CommitLost? { return DbError; }
    if answer.NoRows? { return Checked(false, tx, byDeadline, queryError, merchant); }
    r := Checked(true, answer.row, byDeadline, queryError, merchant);
  }
}
