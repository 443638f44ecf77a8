/** Service.GenerateQR: the row it creates, the bounded retry of qr-mpm-generate, and the mark it
    leaves on its own row. */
module GenerateQr {
  import opened Common
  import opened Text
  import opened Transactions
  import opened Payment

  const MAX_CREATE_RETRIES := 5
  const MAX_TRANSIENT_RETRIES := 3

  datatype Reply =
    | Generated(qr: string, reference: string, expiryDuration: string, expireDate: Option<Time>)
    | Api(status: int)
    | Transport

  /** One HTTP attempt: Manjo's reply and the X-EXTERNAL-ID it was sent with. */
  datatype Attempt = Attempt(reply: Reply, externalId: string)

  predicate Unauthorized(r: Reply) {
    r == Api(401)
  }

  /** The error code of a reply that must not be retried; "" for a transient one. */
  function NonRetryableCode(r: Reply): string
    requires !r.Generated?
  {
    if r.Transport? then ""
    else if r.status == 400 then "INVALID_REQUEST"
    else if r.status == 401 then "UNAUTHORIZED"
    else if r.status == 404 then "INVALID_MERCHANT"
    else if r.status == 409 then "CONFLICT"
    else if r.status >= 500 then "" else "MANJO_ERROR"
  }

  predicate Transient(r: Reply) {
    !r.Generated? && NonRetryableCode(r) == ""
  }

  /** Manjo as one client sees it: any reply to each attempt, in order of the calls. */
  class Client {
    const attempts: nat -> Attempt
    var calls: nat
    var invalidatedAt: seq<nat>    // the number of calls made before each token invalidation

    constructor (attempts: nat -> Attempt)
      ensures this.attempts == attempts && calls == 0 && invalidatedAt == []
    {
      this.attempts, calls, invalidatedAt := attempts, 0, [];
    }

    method GenerateQR() returns (a: Attempt)
      modifies this`calls
      ensures calls == old(calls) + 1 && a == attempts(old(calls))
    {
      a := attempts(calls);
      calls := calls + 1;
    }

    method InvalidateToken()
      modifies this`invalidatedAt
      ensures invalidatedAt == old(invalidatedAt) + [calls]
    {
      invalidatedAt := invalidatedAt + [calls];
    }
  }

  /** The calls a retry sequence that started at call `from` has made, ending before call `to`:
      each but the last failed in a way that is retried, the first 401 counting as such. */
  predicate Retried(attempts: nat -> Attempt, from: nat, to: nat) {
    forall i :: from <= i < to - 1 ==> Transient(attempts(i).reply) || (i == from && attempts(i).reply == Api(401))
  }

  function MaxCalls(first: Reply): nat {
    if first == Api(401) then 4 else 3
  }

  /** How a retry sequence ends: with a QR, with a reply that must not be retried, or spent. */
  function ErrorCode(last: Reply): string {
    if last.Generated? then "" else if NonRetryableCode(last) != "" then NonRetryableCode(last) else "MANJO_TIMEOUT"
  }

  /** The error codes, status by status. */
  lemma ErrorCodes(r: Reply)
    ensures ErrorCode(r) == "" <==> r.Generated?
    ensures ErrorCode(r) == "MANJO_TIMEOUT" <==> r.Transport? || (r.Api? && r.status >= 500)
    ensures ErrorCode(r) == "INVALID_REQUEST" <==> r == Api(400)
    ensures ErrorCode(r) == "UNAUTHORIZED" <==> r == Api(401)
    ensures ErrorCode(r) == "INVALID_MERCHANT" <==> r == Api(404)
    ensures ErrorCode(r) == "CONFLICT" <==> r == Api(409)
    ensures ErrorCode(r) == "MANJO_ERROR" <==> r.Api? && r.status < 500 && r.status !in {400, 401, 404, 409}
  {
  }

  /** It ends with the first reply that is not worth another attempt, after at most three attempts, a first 401
      not counted; that 401 is always followed by another, under a new token. */
  method CallGenerateQRWithRetry(client: Client) returns (last: Reply, externalId: string, errCode: string)
    modifies client
    ensures old(client.calls) < client.calls <= old(client.calls) + MaxCalls(client.attempts(old(client.calls)).reply)
    ensures Retried(client.attempts, old(client.calls), client.calls)
    ensures Attempt(last, externalId) == client.attempts(client.calls - 1) && errCode == ErrorCode(last)
    ensures client.attempts(old(client.calls)).reply == Api(401) ==> client.calls >= old(client.calls) + 2
    ensures errCode == "MANJO_TIMEOUT" ==>
              client.calls == old(client.calls) + MaxCalls(client.attempts(old(client.calls)).reply)
    ensures client.invalidatedAt == old(client.invalidatedAt)
              + if client.attempts(old(client.calls)).reply == Api(401) then [old(client.calls) + 1] else []
  {
    ghost var first := client.calls;
    var a := client.GenerateQR();
    if a.reply.Generated? { return a.reply, a.externalId, ""; }
    if Unauthorized(a.reply) {
      client.InvalidateToken();
      a := client.GenerateQR();
      if a.reply.Generated? { return a.reply, a.externalId, ""; }
    }
    if NonRetryableCode(a.reply) != "" { return a.reply, a.externalId, NonRetryableCode(a.reply); }
    for attempt := 1 to MAX_TRANSIENT_RETRIES
      invariant client.calls == first + attempt + if Unauthorized(client.attempts(first).reply) then 1 else 0
      invariant a == client.attempts(client.calls - 1) && Transient(a.reply)
      invariant Retried(client.attempts, first, client.calls)
      invariant client.invalidatedAt == old(client.invalidatedAt)
                + if Unauthorized(client.attempts(first).reply) then [first + 1] else []
    {
      a := client.GenerateQR();
      if a.reply.Generated? { return a.reply, a.externalId, ""; }
      if NonRetryableCode(a.reply) != "" { return a.reply, a.externalId, NonRetryableCode(a.reply); }
    }
    return a.reply, a.externalId, "MANJO_TIMEOUT";
  }

  // ----- expiry ---------------------------------------------------------------------------

  const MILLISECOND: Time := 1_000_000

  /** Go's int64 arithmetic. */
  function Wrap64(n: int): (r: int)
    ensures -0x8000_0000_0000_0000 <= r < 0x8000_0000_0000_0000 && (r - n) % 0x1_0000_0000_0000_0000 == 0
  {
    (n + INT64_MAX + 1) % (2 * (INT64_MAX + 1)) - (INT64_MAX + 1)
  }

  function ComputeExpireAt(expiryDuration: string, expireDate: Option<Time>, receivedAt: Time): Time {
    var ms := ParseInt(expiryDuration);
    if ms.Some? && ms.value > 0 then receivedAt + Wrap64(ms.value * MILLISECOND)
    else if expireDate.Some? then expireDate.value
    else receivedAt + FALLBACK_QR_VALIDITY
  }

  /** A duration in milliseconds is honoured exactly when its nanoseconds fit 64 bits, about 292
      years; a larger one wraps around. */
  lemma DurationHonoured(ms: nat, expireDate: Option<Time>, receivedAt: Time)
    requires 0 < ms <= INT64_MAX
    ensures ComputeExpireAt(Decimal(ms), expireDate, receivedAt) == receivedAt + ms * 1_000_000 <==>
            ms <= INT64_MAX / 1_000_000
  {
    ParsePrinted(ms);
  }

  /** Without a usable duration Manjo's own date counts, and without either ten minutes. */
  lemma ExpiryWithoutDuration(expiryDuration: string, expireDate: Option<Time>, receivedAt: Time)
    requires ParseInt(expiryDuration).None? || ParseInt(expiryDuration).value <= 0
    ensures ComputeExpireAt(expiryDuration, expireDate, receivedAt)
            == if expireDate.Some? then expireDate.value else receivedAt + 600_000_000_000
  {
  }

  // ----- the whole request ----------------------------------------------------------------

  datatype Result =
    | Error
    | Success(id: TxId, qris: string, expireAt: Time)
    | Failed(id: TxId, code: string)

  datatype Created = NotCreated | New(id: TxId)

  /** Existing rows are not touched, and at most the row `id` is new. */
  predicate OnlyAdds(was: Rows, now: Rows, id: TxId) {
    && (forall k :: k in was ==> k in now && now[k] == was[k])
    && (forall k :: k in now && k !in was ==> k == id)
  }

  /** The k-th attempt creates the row: its ID is the first that is free, and nothing has failed. */
  predicate CreatedAt(rows: Rows, amount: int, ids: nat -> Option<TxId>, fates: nat -> Fate, k: nat) {
    && amount > 0 && (forall i :: 0 <= i <= k ==> ids(i).Some? && fates(i).Committed?)
    && (forall i :: 0 <= i < k ==> ids(i).value in rows) && ids(k).value !in rows
  }

  /** Inserts under fresh IDs until one is free; a lost commit leaves a PENDING row behind. */
  method CreateTransaction(table: Table, merchant: string, device: string, amount: int,
                           ids: nat -> Option<TxId>, fates: nat -> Fate, now: Time)
                               returns (r: Created, ghost last: TxId)
    modifies table
    ensures OnlyAdds(old(table.rows), table.rows, last)
    ensures r.New? <==> exists k :: 0 <= k < 5 && CreatedAt(old(table.rows), amount, ids, fates, k)
    ensures r.New? ==> r.id == last && last !in old(table.rows) && last in table.rows
                       && table.rows[last] == Fresh(merchant, device, amount, now)
    ensures last in table.rows && last !in old(table.rows) ==> table.rows[last] == Fresh(merchant, device, amount, now)
  {
    last := "";
    for attempt := 0 to MAX_CREATE_RETRIES
      invariant table.rows == old(table.rows)
      invariant forall i :: 0 <= i < attempt ==>
                  ids(i).Some? && fates(i).Committed? && amount > 0 && ids(i).value in table.rows
    {
      var id := ids(attempt);
      if id.None? { return NotCreated, last; }
      last := id.value;
      if fates(attempt).NotExecuted? { return NotCreated, last; }
      var db := table.CreateTransaction(id.value, merchant, device, amount, now);
      if fates(attempt).CommitLost? { return NotCreated, last; }
      if db.Returned? {
        assert CreatedAt(old(table.rows), amount, ids, fates, attempt);
        return New(id.value), last;
      }
      if !db.UniqueViolation? { return NotCreated, last; }
    }
    r := NotCreated;
  }

  /** Marks the new row FAILED; the caller ignores how that ends. */
  method MarkFailed(table: Table, id: TxId, fate: Fate, now: Time)
    requires id in table.rows && table.rows[id].status == PENDING
    modifies table
    ensures OnlyAdds(map k | k in old(table.rows) && k != id :: old(table.rows)[k], table.rows, id)
    ensures id in table.rows && table.rows[id].status == if fate.NotExecuted? then PENDING else FAILED
    ensures var was, row := old(table.rows)[id], table.rows[id];
            row.amount == was.amount && row.merchant == was.merchant && row.device == was.device
  {
    if !fate.NotExecuted? {
      var _ := table.MarkTransactionFailed(id, now);
    }
  }

  /** The row shows the QR that Manjo generated. */
  predicate HoldsQr(row: Row, reply: Reply, externalId: string, expireAt: Time, nextQueryAt: Time)
    requires reply.Generated?
  {
    && row.status == QR_GENERATED && row.payload == Some(reply.qr) && row.reference == Some(reply.reference)
    && row.externalId == Some(externalId) && row.expireAt == Some(expireAt) && row.nextQueryAt == Some(nextQueryAt)
  }

  /** Stores the QR in the new row. */
  method MarkQRGenerated(table: Table, id: TxId, reply: Reply, externalId: string, expireAt: Time, nextQueryAt: Time,
                         fate: Fate, now: Time) returns (ok: bool)
    requires reply.Generated? && id in table.rows && table.rows[id].status == PENDING
    modifies table
    ensures OnlyAdds(map k | k in old(table.rows) && k != id :: old(table.rows)[k], table.rows, id)
    ensures id in table.rows && (ok <==> fate.Committed?)
    ensures var was, row := old(table.rows)[id], table.rows[id];
            if fate.NotExecuted? then row == was
            else && HoldsQr(row, reply, externalId, expireAt, nextQueryAt)
                 && row.amount == was.amount && row.merchant == was.merchant && row.device == was.device
  {
    if fate.NotExecuted? { return false; }
    var _ := table.MarkTransactionQRGenerated(id, reply.qr, reply.reference, externalId, expireAt, nextQueryAt, now);
    ok := fate.Committed?;
  }

  /** Every request works on one new row of its own. SUCCESS means the row stores the QR, the
      reference and the external ID of the last attempt made, and every earlier attempt failed in a
      retried way; FAILED means a FAILED row, or a PENDING one if even that mark did not arrive. */
  method GenerateQR(table: Table, client: Client, configured: bool, merchant: string, device: string, amount: int,
                    pollInterval: Time, ids: nat -> Option<TxId>, createFates: nat -> Fate, markFate: Fate, now: Time)
    returns (r: Result, ghost id: TxId)
    modifies table, client
    ensures OnlyAdds(old(table.rows), table.rows, id)
    ensures r.Success? ==>
              && r.id == id && id !in old(table.rows) && id in table.rows
              && client.calls > old(client.calls) && Retried(client.attempts, old(client.calls), client.calls)
              && client.attempts(client.calls - 1).reply.Generated?
              && var last := client.attempts(client.calls - 1);
                 && HoldsQr(table.rows[id], last.reply, last.externalId, r.expireAt, now + pollInterval)
                 && table.rows[id].amount == amount && table.rows[id].merchant == merchant
                 && table.rows[id].device == device && r.qris == last.reply.qr
                 && r.expireAt == ComputeExpireAt(last.reply.expiryDuration, last.reply.expireDate, now)
    ensures r.Failed? ==>
              && r.id == id && id !in old(table.rows) && id in table.rows
              && table.rows[id].status == (if markFate.NotExecuted? then PENDING else FAILED)
              && table.rows[id].amount == amount && table.rows[id].merchant == merchant
              && table.rows[id].device == device
              && (configured ==> client.calls > old(client.calls)
                                 && Retried(client.attempts, old(client.calls), client.calls))
              && (if configured then r.code == ErrorCode(client.attempts(client.calls - 1).reply)
                 else r.code == "CONFIG_ERROR")
              && r.code != ""
    ensures var created := exists k :: 0 <= k < 5 && CreatedAt(old(table.rows), amount, ids, createFates, k);
            var answered := client.calls > 0 && client.attempts(client.calls - 1).reply.Generated?;
            && (r.Success? <==> created && configured && answered && markFate.Committed?)
            && (r.Failed? <==> created && !(configured && answered))
    ensures r.Error? && id in table.rows && id !in old(table.rows) ==>
              table.rows[id].status == PENDING || (table.rows[id].status == QR_GENERATED && markFate.CommitLost?)
    ensures client.calls <= old(client.calls) + 4
  {
    hide CreatedAt, ErrorCode, ComputeExpireAt, Retried, HoldsQr;
    var created, last := CreateTransaction(table, merchant, device, amount, ids, createFates, now);
    id := last;
    if created.NotCreated? { return Error, id; }
    if !configured {
      MarkFailed(table, created.id, markFate, now);
      return Failed(created.id, "CONFIG_ERROR"), id;
    }
    var reply, externalId, errCode := CallGenerateQRWithRetry(client);
    ErrorCodes(reply);
    if errCode != "" {
      MarkFailed(table, created.id, markFate, now);
      return Failed(created.id, errCode), id;
    }
    var expireAt := ComputeExpireAt(reply.expiryDuration, reply.expireDate, now);
    var ok := MarkQRGenerated(table, created.id, reply, externalId, expireAt, now + pollInterval, markFate, now);
    if !ok { return Error, id; }
    r := Success(created.id, reply.qr, expireAt);
  }
}
