/** The payment protocol as a state machine: any number of pollers and QR requests, every SQL
    statement one atomic step, stale copies of rows in flight, lost commits, and crashes between
    any two steps. */
module Poller {
  import opened Common
  import opened Transactions
  import opened Claims
  import opened Payment
  import Topics

  const STALE_ANNOUNCEMENT_AGE: Time := 10 * MINUTE

  /** A claimed row on its way through process: claimed, decided, or moved by this very check. */
  datatype Job =
    | Claimed(tx: Row)
    | Deciding(tx: Row, outcome: Outcome, manjoMerchant: string)
    | Moved(row: Row, manjoMerchant: string)

  /** A job is named by the claim that created it and its transaction. */
  datatype JobId = JobId(claim: nat, tx: TxId)

  /** One call of Announce. */
  datatype Announcement = Announcement(tx: TxId, topic: string, rupiah: int)

  datatype State = State(
    rows: Rows,
    clock: Time,                       // the database's clock
    merchants: map<string, string>,    // device -> Manjo merchant ID
    requests: set<TxId>,               // GenerateQR calls that have not marked their row yet
    claims: nat,                       // claims executed so far
    jobs: map<JobId, Job>,
    left: seq<TxId>,                   // one entry per row moved out of QR_GENERATED
    announced: seq<Announcement>)      // every Announce call, in order

  const INIT := State(map[], 0, map[], {}, 0, map[], [], [])

  datatype Step =
    | Register(device: string, manjoMerchant: string)
    | Begin(stmt: Stmt, replyLost: bool)                  // createTransaction
    | Mark(stmt: Stmt)                                    // markFailed or markQRGenerated
    | GiveUp(id: TxId)                                    // a request that dies before marking
    | ClaimBatch(stmt: Stmt, replyLost: bool)
    | Check(job: JobId, query: Query, queriedAt: Time, now: Time)
    | Move(job: JobId, fate: Fate)
    | Announce(job: JobId, now: Time)
    | Crash(job: JobId)

  function Without(jobs: map<JobId, Job>, j: JobId): map<JobId, Job> {
    jobs - {j}
  }

  function MoveStmt(j: JobId, o: Outcome): Stmt
    requires o.status.Some?
  {
    Transition(j.tx, o.status.value, o.code, o.paidAt)
  }

  /** The jobs a claim hands to the workers: the rows as RETURNING shows them. */
  function NewJobs(claim: nat, picked: set<TxId>, rows: Rows): map<JobId, Job>
    requires picked <= rows.Keys
  {
    map id | id in picked :: JobId(claim, id) := Claimed(rows[id])
  }

  function PaidMoment(row: Row): Time {
    if row.paidAt.Some? then row.paidAt.value else row.createdAt
  }

  /** The query reached Manjo only with the merchant the device is registered to. */
  predicate Resolves(s: State, device: string, q: Query) {
    q.Asked? ==> device in s.merchants && q.manjoMerchant == s.merchants[device]
  }

  /** The statement a step sends to the database at its time, if it sends one that takes effect. */
  function StatementOf(s: State, step: Step): Option<Stmt> {
    match step
    case Begin(stmt, _) => Some(stmt)
    case Mark(stmt) => Some(stmt)
    case ClaimBatch(stmt, _) => Some(stmt)
    case Move(j, fate) =>
      if j in s.jobs && s.jobs[j].Deciding? && s.jobs[j].outcome.status.Some? && !fate.NotExecuted?
      then Some(MoveStmt(j, s.jobs[j].outcome)) else None
    case _ => None
  }

  /** Guards: who may take which step. */
  predicate Allowed(s: State, step: Step, now: Time) {
    s.clock <= now &&
    match step
    case Register(device, _) => device !in s.merchants
    case Begin(stmt, _) => stmt.Create?
    case Mark(stmt) =>
      && (stmt.MarkFailed? || stmt.MarkQr?)
      && stmt.id in s.requests
    case GiveUp(id) => id in s.requests
    case ClaimBatch(stmt, _) => stmt.Claim? && Enabled(s.rows, stmt, now)
    case Check(j, q, _, _) => j in s.jobs && s.jobs[j].Claimed? && Resolves(s, s.jobs[j].tx.device, q)
    case Move(j, _) => j in s.jobs && s.jobs[j].Deciding?
    case Announce(j, _) => j in s.jobs && s.jobs[j].Moved?
    case Crash(j) => j in s.jobs
  }

  function RowsAfter(s: State, step: Step, now: Time): Rows
    requires Allowed(s, step, now)
  {
    var stmt := StatementOf(s, step);
    if stmt.Some? then Exec(s.rows, stmt.value, now) else s.rows
  }

  /** This step's UPDATE finds its row still QR_GENERATED. */
  predicate Hits(s: State, step: Step) {
    && step.Move? && StatementOf(s, step).Some?
    && step.job.tx in s.rows && s.rows[step.job.tx].status == QR_GENERATED
  }

  function RequestsAfter(s: State, step: Step, now: Time): set<TxId>
    requires Allowed(s, step, now)
  {
    match step
    case Begin(c, replyLost) =>
      if RowsAfter(s, step, now) != s.rows && !replyLost then s.requests + {c.id} else s.requests
    case Mark(m) => s.requests - {m.id}
    case GiveUp(id) => s.requests - {id}
    case _ => s.requests
  }

  function JobsAfter(s: State, step: Step, now: Time): map<JobId, Job>
    requires Allowed(s, step, now)
  {
    match step
    case ClaimBatch(c, replyLost) =>
      if replyLost then s.jobs else s.jobs + NewJobs(s.claims, c.picked, RowsAfter(s, step, now))
    case Check(j, q, queriedAt, clock) =>
      var o := Decide(s.jobs[j].tx, q, queriedAt, clock);
      if o.status.None? then Without(s.jobs, j)
      else s.jobs[j := Deciding(s.jobs[j].tx, o, if q.Asked? then q.manjoMerchant else "")]
    case Move(j, fate) =>
      var rows := RowsAfter(s, step, now);
      if Hits(s, step) && fate.Committed? && j.tx in rows
      then s.jobs[j := Moved(rows[j.tx], s.jobs[j].manjoMerchant)] else Without(s.jobs, j)
    case Announce(j, _) => Without(s.jobs, j)
    case Crash(j) => Without(s.jobs, j)
    case _ => s.jobs
  }

  function AnnouncedAfter(s: State, step: Step, now: Time): seq<Announcement>
    requires Allowed(s, step, now)
  {
    if !step.Announce? then s.announced
    else
      var row := s.jobs[step.job].row;
      if row.status == PAID && step.now - PaidMoment(row) <= STALE_ANNOUNCEMENT_AGE
      then s.announced + [Announcement(step.job.tx, Topics.DeviceTopic(s.jobs[step.job].manjoMerchant, row.device),
          row.amount)]
      else s.announced
  }

  /** The state after one step taken at database time `now`. */
  function Next(s: State, step: Step, now: Time): State
    requires Allowed(s, step, now)
  {
    State(RowsAfter(s, step, now), now,
          if step.Register? then s.merchants[step.device := step.manjoMerchant] else s.merchants,
          RequestsAfter(s, step, now),
          if step.ClaimBatch? then s.claims + 1 else s.claims,
          JobsAfter(s, step, now),
          if Hits(s, step) then s.left + [step.job.tx] else s.left,
          AnnouncedAfter(s, step, now))
  }

  // ----- the invariant --------------------------------------------------------------------

  /** The columns of a row fit its status. */
  predicate RowInvariant(row: Row) {
    && row.amount > 0
    && (row.status == PENDING ==> row.code.None? && row.paidAt.None? && row.nextQueryAt.None? && row.payload.None?)
    && (row.status == QR_GENERATED ==>
          && row.payload.Some? && row.reference.Some? && row.externalId.Some? && row.expireAt.Some?
          && row.nextQueryAt.Some? && row.code.None? && row.paidAt.None?)
    && (Final(row.status) ==> row.nextQueryAt.None?)
    && (row.status == PAID <==> row.code == Some("00"))
    && (row.status == EXPIRED ==> row.code.None?)
    && (row.paidAt.Some? ==> row.status == PAID)
    && (Final(row.status) && row.status != FAILED ==> row.payload.Some?)
  }

  /** A copy claimed earlier agrees with the row on everything a check reads from it. */
  predicate CopyOf(tx: Row, row: Row) {
    && tx.merchant == row.merchant && tx.device == row.device && tx.amount == row.amount
    && tx.createdAt == row.createdAt && tx.expireAt == row.expireAt && tx.reference == row.reference
    && tx.externalId == row.externalId && row.status != PENDING
  }

  predicate OutcomeOk(o: Outcome) {
    && o.status.Some? && Final(o.status.value)
    && (o.status == Some(PAID) <==> o.code == Some("00"))
    && (o.status == Some(EXPIRED) ==> o.code.None?)
    && (o.paidAt.Some? ==> o.status == Some(PAID))
  }

  predicate JobOk(s: State, j: JobId) {
    && j.claim < s.claims
    && j.tx in s.rows
    && (j in s.jobs ==>
          match s.jobs[j]
          case Claimed(tx) => CopyOf(tx, s.rows[j.tx])
          case Deciding(tx, o, m) =>
            && CopyOf(tx, s.rows[j.tx]) && OutcomeOk(o)
            && (o.status == Some(PAID) ==> tx.device in s.merchants && s.merchants[tx.device] == m)
          case Moved(row, m) =>
            && row == s.rows[j.tx] && Final(row.status) && j.tx in s.left
            && (row.status == PAID ==> row.device in s.merchants && s.merchants[row.device] == m))
  }

  /** What an Announce call may say. */
  predicate Truthful(s: State, a: Announcement) {
    && a.tx in s.rows && a.tx in s.left
    && var row := s.rows[a.tx];
       && row.status == PAID && a.rupiah == row.amount
       && row.device in s.merchants && a.topic == Topics.DeviceTopic(s.merchants[row.device], row.device)
  }

  predicate Distinct<T(==)>(q: seq<T>) {
    forall i, j :: 0 <= i < j < |q| ==> q[i] != q[j]
  }

  /** At most one job or announcement speaks for a moved row. */
  predicate OneVoice(s: State) {
    && (forall j, k :: j in s.jobs && k in s.jobs && s.jobs[j].Moved? && s.jobs[k].Moved? && j.tx == k.tx ==> j == k)
    && (forall j, i :: j in s.jobs && s.jobs[j].Moved? && 0 <= i < |s.announced| ==> s.announced[i].tx != j.tx)
    && (forall i, k :: 0 <= i < k < |s.announced| ==> s.announced[i].tx != s.announced[k].tx)
  }

  predicate RowsOk(s: State) {
    forall id :: id in s.rows ==> RowInvariant(s.rows[id])
  }

  predicate RequestsOk(s: State) {
    forall id :: id in s.requests ==> id in s.rows && s.rows[id].status == PENDING
  }

  predicate JobsOk(s: State) {
    forall j :: j in s.jobs ==> JobOk(s, j)
  }

  /** `left` lists exactly the rows that were QR_GENERATED once and are final now, each once. */
  predicate LeftOk(s: State) {
    && (forall id :: id in s.left ==> id in s.rows)
    && (forall id :: id in s.rows ==> (id in s.left <==> Final(s.rows[id].status) && s.rows[id].payload.Some?))
    && Distinct(s.left)
  }

  predicate AnnouncedOk(s: State) {
    forall a :: a in s.announced ==> Truthful(s, a)
  }

  predicate Inv(s: State) {
    RowsOk(s) && RequestsOk(s) && JobsOk(s) && LeftOk(s) && AnnouncedOk(s) && OneVoice(s)
  }

  // ----- how rows move --------------------------------------------------------------------

  /** A later version of a row: who pays what to whom never changes, a generated QR never
      changes, status only moves forward, and a final row is frozen. */
  predicate Later(a: Row, b: Row) {
    && a.merchant == b.merchant && a.device == b.device && a.amount == b.amount && a.createdAt == b.createdAt
    && (a.status != PENDING ==>
          && b.status != PENDING
          && a.payload == b.payload && a.reference == b.reference
          && a.externalId == b.externalId && a.expireAt == b.expireAt)
    && (a.status == PENDING && Final(b.status) && b.payload.None? ==> b.status == FAILED)
    && (Final(a.status) ==> a == b)
  }

  predicate Extends(s: State, n: State) {
    && (forall id :: id in s.rows ==> id in n.rows && Later(s.rows[id], n.rows[id]))
    && (forall d :: d in s.merchants ==> d in n.merchants && n.merchants[d] == s.merchants[d])
    && (forall id :: id in s.left ==> id in n.left)
    && s.claims <= n.claims
  }

  /** A row has moved on and its columns fit. */
  predicate Stepped(rows: Rows, after: Rows, id: TxId) {
    && (id in rows ==> id in after && Later(rows[id], after[id]))
    && (id in after ==> RowInvariant(after[id]))
  }

  lemma CreateSteps(rows: Rows, stmt: Stmt, now: Time, id: TxId)
    requires stmt.Create? && (id in rows ==> RowInvariant(rows[id]))
    ensures Stepped(rows, Exec(rows, stmt, now), id)
  {
  }

  /** A mark finds its row PENDING. */
  lemma MarkSteps(rows: Rows, stmt: Stmt, now: Time, id: TxId)
    requires (stmt.MarkFailed? || stmt.MarkQr?) && stmt.id in rows && rows[stmt.id].status == PENDING
    requires id in rows ==> RowInvariant(rows[id])
    ensures Stepped(rows, Exec(rows, stmt, now), id)
  {
  }

  lemma ClaimSteps(rows: Rows, stmt: Stmt, now: Time, id: TxId)
    requires stmt.Claim? && Enabled(rows, stmt, now) && (id in rows ==> RowInvariant(rows[id]))
    ensures Stepped(rows, Exec(rows, stmt, now), id)
  {
    if id in stmt.picked { assert Due(rows[id], now, stmt.merchantFilter); }
  }

  lemma MoveSteps(rows: Rows, j: JobId, o: Outcome, now: Time, id: TxId)
    requires OutcomeOk(o) && (id in rows ==> RowInvariant(rows[id]))
    ensures Stepped(rows, Exec(rows, MoveStmt(j, o), now), id)
  {
  }

  /** One row through one statement that the protocol sends. */
  lemma RowStep(s: State, step: Step, now: Time, id: TxId)
    requires RowsOk(s) && RequestsOk(s) && JobsOk(s) && Allowed(s, step, now)
    ensures id in s.rows ==> id in RowsAfter(s, step, now) && Later(s.rows[id], RowsAfter(s, step, now)[id])
    ensures id in RowsAfter(s, step, now) ==> RowInvariant(RowsAfter(s, step, now)[id])
  {
    hide Exec, Later, RowInvariant;
    if id in s.rows {
      assert RowInvariant(s.rows[id]);
      LaterItself(s.rows[id]);
    }
    match step {
      case Begin(stmt, _) => CreateSteps(s.rows, stmt, now, id);
      case Mark(stmt) => MarkSteps(s.rows, stmt, now, id);
      case ClaimBatch(stmt, _) => ClaimSteps(s.rows, stmt, now, id);
      case Move(j, _) =>
        assert JobOk(s, j);
        MoveSteps(s.rows, j, s.jobs[j].outcome, now, id);
      case _ =>
    }
  }

  lemma LaterItself(row: Row)
    ensures Later(row, row)
  {
  }

  /** How it enters and leaves its states: only a mark moves a PENDING row, only a step that hits a
      QR_GENERATED row finishes it. */
  lemma RowMoves(s: State, step: Step, now: Time, id: TxId)
    requires RowsOk(s) && RequestsOk(s) && JobsOk(s) && Allowed(s, step, now)
    ensures id in s.rows ==> id in RowsAfter(s, step, now)
    ensures id in RowsAfter(s, step, now) && id !in s.rows ==> RowsAfter(s, step, now)[id].status == PENDING
    ensures id in s.rows && s.rows[id].status == PENDING && !(step.Mark? && step.stmt.id == id) ==>
            RowsAfter(s, step, now)[id] == s.rows[id]
    ensures id in s.rows && !Final(s.rows[id].status) && Final(RowsAfter(s, step, now)[id].status) ==>
              (s.rows[id].status == QR_GENERATED <==> Hits(s, step) && step.job.tx == id) &&
              (s.rows[id].status == PENDING <==> RowsAfter(s, step, now)[id].payload.None?)
    ensures Hits(s, step) ==> Final(RowsAfter(s, step, now)[step.job.tx].status)
  {
    if id in s.rows { assert RowInvariant(s.rows[id]); }
    match step {
      case ClaimBatch(stmt, _) =>
        if id in stmt.picked { assert Due(s.rows[id], now, stmt.merchantFilter); }
      case Move(j, _) =>
        assert JobOk(s, j);
      case _ =>
    }
  }

  lemma StepExtends(s: State, step: Step, now: Time)
    requires RowsOk(s) && RequestsOk(s) && JobsOk(s) && Allowed(s, step, now)
    ensures Extends(s, Next(s, step, now)) && RowsOk(Next(s, step, now)) && RequestsOk(Next(s, step, now))
  {
    forall id
      ensures id in s.rows ==> id in RowsAfter(s, step, now) && Later(s.rows[id], RowsAfter(s, step, now)[id])
      ensures id in RowsAfter(s, step, now) ==> RowInvariant(RowsAfter(s, step, now)[id])
      ensures id in RequestsAfter(s, step, now) ==>
              id in RowsAfter(s, step, now) && RowsAfter(s, step, now)[id].status == PENDING
    {
      RowStep(s, step, now, id);
      RowMoves(s, step, now, id);
      if step.Begin? { RowMoves(s, step, now, step.stmt.id); }
    }
  }

  /** What a job or an announcement knows stays true in an extension. */
  lemma KnowledgePersists(s: State, n: State)
    requires Extends(s, n)
    ensures forall j :: j in s.jobs && j in n.jobs && s.jobs[j] == n.jobs[j] && JobOk(s, j) ==> JobOk(n, j)
    ensures forall a :: a in s.announced && Truthful(s, a) ==> Truthful(n, a)
  {
  }

  // ----- every step keeps the invariant ---------------------------------------------------

  /** A step hands on a job, or changes the one it names, or starts new ones by a claim. */
  lemma JobOrigin(s: State, step: Step, now: Time, j: JobId)
    requires Allowed(s, step, now) && j in JobsAfter(s, step, now)
    ensures || (j in s.jobs && JobsAfter(s, step, now)[j] == s.jobs[j])
            || (j in s.jobs && (step.Check? || step.Move?) && j == step.job)
            || (step.ClaimBatch? && j.tx in step.stmt.picked && j.claim == s.claims
                && JobsAfter(s, step, now)[j] == Claimed(RowsAfter(s, step, now)[j.tx]))
    ensures JobsAfter(s, step, now)[j].Moved? ==>
              (j in s.jobs && s.jobs[j].Moved? && !(step.Announce? && step.job == j))
                  || (Hits(s, step) && j == step.job)
  {
  }

  lemma JobKept(s: State, step: Step, now: Time, j: JobId)
    requires Inv(s) && Allowed(s, step, now) && Extends(s, Next(s, step, now)) && j in JobsAfter(s, step, now)
    ensures JobOk(Next(s, step, now), j)
  {
    hide Decide, LeftOk, OneVoice, AnnouncedAfter, RequestsAfter, Truthful, RowInvariant, Later;
    var n := Next(s, step, now);
    JobOrigin(s, step, now, j);
    if j in s.jobs {
      assert JobOk(s, j);
      if n.jobs[j] == s.jobs[j] {
        KnowledgePersists(s, n);
      } else if step.Check? {
        DecideIsComplete(s.jobs[j].tx, step.query, step.queriedAt, step.now);
      } else {
        RowMoves(s, step, now, j.tx);
      }
    } else {
      assert Due(s.rows[j.tx], now, step.stmt.merchantFilter);
    }
  }

  lemma JobsKept(s: State, step: Step, now: Time)
    requires Inv(s) && Allowed(s, step, now) && Extends(s, Next(s, step, now))
    ensures JobsOk(Next(s, step, now))
  {
    forall j | j in JobsAfter(s, step, now) ensures JobOk(Next(s, step, now), j) {
      JobKept(s, step, now, j);
    }
  }

  lemma LeftKept(s: State, step: Step, now: Time)
    requires Inv(s) && Allowed(s, step, now) && Extends(s, Next(s, step, now))
    ensures LeftOk(Next(s, step, now))
  {
    hide RowsAfter, JobsAfter, RequestsAfter, AnnouncedAfter, JobOk, Truthful, OneVoice;
    var n := Next(s, step, now);
    forall id | id in n.rows ensures id in n.left <==> Final(n.rows[id].status) && n.rows[id].payload.Some? {
      RowStep(s, step, now, id);
      RowMoves(s, step, now, id);
      if id in s.rows { assert RowInvariant(s.rows[id]); }
    }
  }

  lemma AnnouncedKept(s: State, step: Step, now: Time)
    requires Inv(s) && Allowed(s, step, now) && Extends(s, Next(s, step, now))
    ensures AnnouncedOk(Next(s, step, now))
  {
    KnowledgePersists(s, Next(s, step, now));
    if step.Announce? { assert JobOk(s, step.job); }
  }

  /** Nobody speaks for a row that is still QR_GENERATED. */
  lemma SpokenRowsAreFinal(s: State)
    requires Inv(s)
    ensures forall j :: j in s.jobs && s.jobs[j].Moved? ==> j.tx in s.rows && Final(s.rows[j.tx].status)
    ensures forall i :: 0 <= i < |s.announced| ==>
                        s.announced[i].tx in s.rows && Final(s.rows[s.announced[i].tx].status)
  {
    forall j | j in s.jobs && s.jobs[j].Moved? ensures j.tx in s.rows && Final(s.rows[j.tx].status) {
      assert JobOk(s, j);
    }
    forall i | 0 <= i < |s.announced| ensures s.announced[i].tx in s.rows && Final(s.rows[s.announced[i].tx].status) {
      assert Truthful(s, s.announced[i]);
    }
  }

  lemma VoiceKept(s: State, step: Step, now: Time)
    requires Inv(s) && Allowed(s, step, now)
    ensures OneVoice(Next(s, step, now))
  {
    hide RowsAfter, JobsAfter, RequestsAfter, JobOk, RowInvariant, Truthful, LeftOk;
    SpokenRowsAreFinal(s);
    var n := Next(s, step, now);
    forall j | j in n.jobs && n.jobs[j].Moved?
      ensures (j in s.jobs && s.jobs[j].Moved? && !(step.Announce? && step.job == j))
              || (Hits(s, step) && j == step.job)
    {
      JobOrigin(s, step, now, j);
    }
  }

  lemma StepKeeps(s: State, step: Step, now: Time)
    requires Inv(s) && Allowed(s, step, now)
    ensures Inv(Next(s, step, now)) && Extends(s, Next(s, step, now))
  {
    StepExtends(s, step, now);
    JobsKept(s, step, now);
    LeftKept(s, step, now);
    AnnouncedKept(s, step, now);
    VoiceKept(s, step, now);
  }

  // ----- whole runs -----------------------------------------------------------------------

  datatype Taken = Taken(step: Step, now: Time)

  predicate Possible(s: State, run: seq<Taken>)
    decreases |run|
  {
    run == [] || (Allowed(s, run[0].step, run[0].now) && Possible(Next(s, run[0].step, run[0].now), run[1..]))
  }

  function After(s: State, run: seq<Taken>): State
    requires Possible(s, run)
    decreases |run|
  {
    if run == [] then s else After(Next(s, run[0].step, run[0].now), run[1..])
  }

  lemma ExtendsItself(s: State)
    ensures Extends(s, s)
  {
  }

  lemma ExtendsAgain(a: State, b: State, c: State)
    requires Extends(a, b) && RowsOk(b) && Extends(b, c)
    ensures Extends(a, c)
  {
    forall id | id in a.rows ensures id in c.rows && Later(a.rows[id], c.rows[id]) {
      assert RowInvariant(b.rows[id]);
    }
  }

  lemma {:induction false} RunKeeps(s: State, run: seq<Taken>)
    requires Inv(s) && Possible(s, run)
    ensures Inv(After(s, run)) && Extends(s, After(s, run))
    decreases |run|
  {
    hide RowsOk, RequestsOk, JobsOk, LeftOk, AnnouncedOk, OneVoice, Allowed, Next, Extends;
    if run == [] {
      ExtendsItself(s);
    } else {
      var n := Next(s, run[0].step, run[0].now);
      StepKeeps(s, run[0].step, run[0].now);
      RunKeeps(n, run[1..]);
      ExtendsAgain(s, n, After(s, run));
    }
  }

  /** Safety of the whole protocol. In every run of any number of pollers and requests, each row
      leaves QR_GENERATED at most once and is then in its final state; Announce is called at most
      once per transaction, only for a row that is PAID, with that row's amount and on the topic of
      that row's own device; and the columns of every row fit its status. */
  lemma AnnouncedAtMostOnce(run: seq<Taken>)
    requires Possible(INIT, run)
    ensures var s := After(INIT, run);
            && (forall i, j :: 0 <= i < j < |s.announced| ==> s.announced[i].tx != s.announced[j].tx)
            && (forall i :: 0 <= i < |s.announced| ==> Truthful(s, s.announced[i]))
            && (forall i, j :: 0 <= i < j < |s.left| ==> s.left[i] != s.left[j])
            && (forall id :: id in s.rows ==>
                  && RowInvariant(s.rows[id])
                  && (id in s.left <==> Final(s.rows[id].status) && s.rows[id].payload.Some?))
  {
    RunKeeps(INIT, run);
  }

  /** Between any two moments of a run a row only moves forward: PENDING to QR_GENERATED or FAILED,
      QR_GENERATED to a final state; a final row never changes in any column. */
  lemma HistoryOfARow(early: seq<Taken>, late: seq<Taken>, id: TxId)
    requires Possible(INIT, early) && Possible(After(INIT, early), late)
    requires id in After(INIT, early).rows
    ensures id in After(After(INIT, early), late).rows
    ensures Later(After(INIT, early).rows[id], After(After(INIT, early), late).rows[id])
  {
    RunKeeps(INIT, early);
    RunKeeps(After(INIT, early), late);
  }

  /** A request that begins has its row, and may mark it if it has heard so. */
  lemma BeginTakesEffect(s: State, step: Step, now: Time)
    requires Inv(s) && Allowed(s, step, now) && step.Begin? && step.stmt.id !in s.rows && step.stmt.amount > 0
    ensures var n, c := Next(s, step, now), step.stmt;
            && c.id in n.rows && n.rows[c.id].status == PENDING && n.rows[c.id].amount == c.amount
            && n.rows[c.id].merchant == c.merchant && n.rows[c.id].device == c.device && n.rows[c.id].createdAt == now
            && n.requests == if step.replyLost then s.requests else s.requests + {c.id}
  {
    hide JobsAfter, AnnouncedAfter, JobOk, OneVoice, LeftOk;
  }

  /** A mark ends the request, with the row FAILED or showing the QR. */
  lemma MarkTakesEffect(s: State, step: Step, now: Time)
    requires Inv(s) && Allowed(s, step, now) && step.Mark?
    ensures var n, m := Next(s, step, now), step.stmt;
            && m.id in n.rows && m.id !in n.requests
            && (m.MarkFailed? ==> n.rows[m.id].status == FAILED)
            && (m.MarkQr? ==> && n.rows[m.id].status == QR_GENERATED && n.rows[m.id].payload == Some(m.payload)
                              && n.rows[m.id].expireAt == Some(m.expireAt)
                              && n.rows[m.id].nextQueryAt == Some(m.nextQueryAt))
  {
    hide JobsAfter, AnnouncedAfter, JobOk, OneVoice, LeftOk;
  }

  /** A claim pushes its rows out by the interval and starts a job for each. */
  lemma ClaimTakesEffect(s: State, step: Step, now: Time, id: TxId)
    requires Inv(s) && Allowed(s, step, now) && step.ClaimBatch? && id in step.stmt.picked
    ensures var n := Next(s, step, now);
            && id in s.rows && id in n.rows
            && n.rows[id] == s.rows[id].(nextQueryAt := Some(now + step.stmt.interval), updatedAt := now)
            && (!step.replyLost ==> JobId(s.claims, id) in n.jobs && n.jobs[JobId(s.claims, id)] == Claimed(n.rows[id]))
  {
    hide AnnouncedAfter, RequestsAfter, JobOk, OneVoice, LeftOk, RowInvariant;
    assert Due(s.rows[id], now, step.stmt.merchantFilter);
  }

  // ----- when a payment is announced ------------------------------------------------------

  /** The row is PAID and, at `now`, at most ten minutes old, counted from its paid_at or else its creation. */
  predicate InTime(row: Row, now: Time) {
    row.status == PAID && now - (if row.paidAt.Some? then row.paidAt.value else row.createdAt) <= 600_000_000_000
  }

  function Said(row: Row, id: TxId, manjoMerchant: string): Announcement {
    Announcement(id, Topics.DeviceTopic(manjoMerchant, row.device), row.amount)
  }

  /** A job that comes to announcing its row does so once if the payment is no older than that, and otherwise
      not at all; no other step announces anything. */
  lemma AnnounceDecides(s: State, step: Step, now: Time)
    requires Inv(s) && Allowed(s, step, now)
    ensures !step.Announce? ==> Next(s, step, now).announced == s.announced
    ensures step.Announce? ==>
              var row := s.rows[step.job.tx];
              && s.jobs[step.job] == Moved(row, s.jobs[step.job].manjoMerchant)
              && Next(s, step, now).announced ==
                 s.announced + if InTime(row, step.now) then [Said(row, step.job.tx, s.jobs[step.job].manjoMerchant)]
                               else []
  {
    if step.Announce? { assert JobOk(s, step.job); }
  }

  predicate Announced(s: State, id: TxId) {
    exists i :: 0 <= i < |s.announced| && s.announced[i].tx == id
  }

  /** The row is final and no job speaks for it any more. */
  predicate Silent(s: State, id: TxId) {
    id in s.rows && Final(s.rows[id].status) && forall j :: j in s.jobs && j.tx == id ==> !s.jobs[j].Moved?
  }

  lemma StartIsInOrder()
    ensures Inv(INIT)
  {
  }

  lemma SilentStep(s: State, step: Step, now: Time, id: TxId)
    requires Inv(s) && Allowed(s, step, now) && Silent(s, id)
    ensures var n := Next(s, step, now);
            Silent(n, id) && n.rows[id] == s.rows[id] && (Announced(n, id) <==> Announced(s, id))
  {
    hide RequestsAfter, RowInvariant, OneVoice, LeftOk;
    var n := Next(s, step, now);
    StepExtends(s, step, now);
    forall j | j in n.jobs && j.tx == id ensures !n.jobs[j].Moved? { JobOrigin(s, step, now, j); }
    AnnounceDecides(s, step, now);
    if Announced(s, id) {
      var i :| 0 <= i < |s.announced| && s.announced[i].tx == id;
      assert n.announced[i].tx == id;
    }
  }

  lemma {:induction false} SilentRun(s: State, run: seq<Taken>, id: TxId)
    requires Inv(s) && Possible(s, run) && Silent(s, id)
    ensures var n := After(s, run);
            id in n.rows && n.rows[id] == s.rows[id] && (Announced(n, id) <==> Announced(s, id))
    decreases |run|
  {
    hide Inv, Next, Allowed, Silent, Announced;
    if run == [] {
      assert id in s.rows by { SilentIsThere(s, id); }
    } else {
      StepKeeps(s, run[0].step, run[0].now);
      SilentStep(s, run[0].step, run[0].now, id);
      SilentRun(Next(s, run[0].step, run[0].now), run[1..], id);
    }
  }

  lemma SilentIsThere(s: State, id: TxId)
    requires Silent(s, id)
    ensures id in s.rows
  {
  }

  /** Once announced or passed over, a row is not spoken for again. */
  lemma AnnounceSilences(s: State, step: Step, now: Time)
    requires Inv(s) && Allowed(s, step, now) && step.Announce?
    ensures var id, n := step.job.tx, Next(s, step, now);
            && id in s.rows && Silent(n, id) && n.rows[id] == s.rows[id]
            && (Announced(n, id) <==> InTime(s.rows[id], step.now))
  {
    hide RequestsAfter, RowInvariant, LeftOk, InTime;
    var id, n := step.job.tx, Next(s, step, now);
    assert JobOk(s, step.job);
    AnnounceDecides(s, step, now);
    forall j | j in n.jobs && j.tx == id ensures !n.jobs[j].Moved? { JobOrigin(s, step, now, j); }
    if InTime(s.rows[id], step.now) { assert n.announced[|s.announced|].tx == id; }
  }

  /** Over a whole run: a job that reaches its announcement has it made exactly if its payment is not too old
      then, whatever happens before and after. */
  lemma AnnouncedExactlyInTime(early: seq<Taken>, t: Taken, late: seq<Taken>)
    requires Possible(INIT, early) && t.step.Announce? && Allowed(After(INIT, early), t.step, t.now)
    requires Possible(Next(After(INIT, early), t.step, t.now), late)
    ensures var n, id := After(Next(After(INIT, early), t.step, t.now), late), t.step.job.tx;
            id in n.rows && (Announced(n, id) <==> InTime(n.rows[id], t.step.now))
  {
    hide Inv, Next, Allowed, Silent, Announced, InTime;
    var s := After(INIT, early);
    StartIsInOrder();
    RunKeeps(INIT, early);
    StepKeeps(s, t.step, t.now);
    AnnounceSilences(s, t.step, t.now);
    SilentRun(Next(s, t.step, t.now), late, t.step.job.tx);
  }

  /** The job's check was answered PAID, with `paid` as the time, and it has not ended otherwise. */
  predicate CarriesPayment(s: State, j: JobId, paid: Time, manjoMerchant: string) {
    j.claim < s.claims &&
    (j in s.jobs ==>
       match s.jobs[j]
       case Claimed(_) => false
       case Deciding(_, o, m) =>
         && o.status == Some(PAID) && (if paid == 0 then o.paidAt.None? else o.paidAt == Some(paid))
            && m == manjoMerchant
       case Moved(row, m) =>
         && row.status == PAID && (if paid == 0 then row.paidAt.None? else row.paidAt == Some(paid))
            && m == manjoMerchant)
  }

  predicate AnsweredPaid(step: Step, paid: Time, manjoMerchant: string) {
    && step.Check? && step.query.Asked? && step.query.manjoMerchant == manjoMerchant && step.query.answer.Answered?
    && step.query.answer.latestStatus == "00"
    && paid == if step.query.answer.paidTime.Some? then step.query.answer.paidTime.value else step.queriedAt
  }

  lemma PaymentStarts(s: State, step: Step, now: Time, paid: Time, manjoMerchant: string)
    requires Inv(s) && Allowed(s, step, now) && AnsweredPaid(step, paid, manjoMerchant)
    ensures CarriesPayment(Next(s, step, now), step.job, paid, manjoMerchant)
  {
    assert JobOk(s, step.job);
  }

  lemma PaymentStep(s: State, step: Step, now: Time, j: JobId, paid: Time, manjoMerchant: string)
    requires Inv(s) && Allowed(s, step, now) && CarriesPayment(s, j, paid, manjoMerchant)
    ensures CarriesPayment(Next(s, step, now), j, paid, manjoMerchant)
  {
    hide RequestsAfter, AnnouncedAfter, OneVoice, LeftOk, Decide;
    if j in JobsAfter(s, step, now) { JobOrigin(s, step, now, j); }
    if step.Move? && step.job == j {
      assert JobOk(s, j);
      if Hits(s, step) { assert RowInvariant(s.rows[j.tx]); }
    }
  }

  lemma {:induction false} PaymentRun(s: State, run: seq<Taken>, j: JobId, paid: Time, manjoMerchant: string)
    requires Inv(s) && Possible(s, run) && CarriesPayment(s, j, paid, manjoMerchant)
    ensures CarriesPayment(After(s, run), j, paid, manjoMerchant)
    decreases |run|
  {
    hide Inv, Next, Allowed, CarriesPayment;
    if run != [] {
      StepKeeps(s, run[0].step, run[0].now);
      PaymentStep(s, run[0].step, run[0].now, j, paid, manjoMerchant);
      PaymentRun(Next(s, run[0].step, run[0].now), run[1..], j, paid, manjoMerchant);
    }
  }

  lemma CarriedIsMoved(s: State, t: Taken, paid: Time, manjoMerchant: string)
    requires Inv(s) && t.step.Announce? && Allowed(s, t.step, t.now)
    requires CarriesPayment(s, t.step.job, paid, manjoMerchant)
    ensures t.step.job in s.jobs && s.jobs[t.step.job].Moved? && s.jobs[t.step.job].manjoMerchant == manjoMerchant
    ensures t.step.job.tx in s.rows && s.rows[t.step.job.tx] == s.jobs[t.step.job].row
    ensures s.rows[t.step.job.tx].status == PAID
            && s.rows[t.step.job.tx].paidAt == if paid == 0 then None else Some(paid)
  {
    assert JobOk(s, t.step.job);
  }

  /** Announcements are never taken back. */
  lemma {:induction false} SaidStays(s: State, run: seq<Taken>)
    requires Possible(s, run)
    ensures forall a :: a in s.announced ==> a in After(s, run).announced
    decreases |run|
  {
    if run != [] { SaidStays(Next(s, run[0].step, run[0].now), run[1..]); }
  }

  /** End to end: a check is answered "00", and its job lives to its announcement. Then the row is PAID with
      Manjo's time, or the service's own when that did not parse, but never the zero time, and it is announced,
      on its device's topic and with its amount, exactly if that time (or the creation) lies at most ten minutes
      back. */
  lemma PaidCheckIsAnnounced(early: seq<Taken>, check: Taken, middle: seq<Taken>, t: Taken, late: seq<Taken>,
      paid: Time,
                             manjoMerchant: string)
    requires Possible(INIT, early) && Allowed(After(INIT, early), check.step, check.now)
    requires AnsweredPaid(check.step, paid, manjoMerchant)
    requires Possible(Next(After(INIT, early), check.step, check.now), middle)
    requires var s := After(Next(After(INIT, early), check.step, check.now), middle);
             && t.step.Announce? && t.step.job == check.step.job && Allowed(s, t.step, t.now)
             && Possible(Next(s, t.step, t.now), late)
    ensures var s := After(Next(After(INIT, early), check.step, check.now), middle);
            var n, id := After(Next(s, t.step, t.now), late), check.step.job.tx;
            && id in n.rows && n.rows[id].status == PAID
            && n.rows[id].paidAt == (if paid == 0 then None else Some(paid))
            && (if t.step.now - (if paid == 0 then n.rows[id].createdAt else paid) <= 600_000_000_000
                then Said(n.rows[id], id, manjoMerchant) in n.announced else !Announced(n, id))
  {
    hide Inv, Next, Allowed, Silent;
    var s0 := After(INIT, early);
    var s1 := Next(s0, check.step, check.now);
    var s := After(s1, middle);
    StartIsInOrder();
    RunKeeps(INIT, early);
    StepKeeps(s0, check.step, check.now);
    RunKeeps(s1, middle);
    PaymentStarts(s0, check.step, check.now, paid, manjoMerchant);
    PaymentRun(s1, middle, check.step.job, paid, manjoMerchant);
    CarriedIsMoved(s, t, paid, manjoMerchant);
    StepKeeps(s, t.step, t.now);
    AnnounceSilences(s, t.step, t.now);
    AnnounceDecides(s, t.step, t.now);
    SilentRun(Next(s, t.step, t.now), late, check.step.job.tx);
    SaidStays(Next(s, t.step, t.now), late);
  }

  /** A check answered "00" becomes a job that carries the payment, and its UPDATE, if it is the one that finds
      the row still QR_GENERATED, a job that may announce it; any other UPDATE ends the job. */
  lemma PaymentMoves(s: State, step: Step, now: Time, paid: Time, manjoMerchant: string)
    requires Inv(s) && Allowed(s, step, now)
    ensures AnsweredPaid(step, paid, manjoMerchant) ==>
              step.job in Next(s, step, now).jobs && Next(s, step, now).jobs[step.job].Deciding?
    ensures step.Move? && CarriesPayment(s, step.job, paid, manjoMerchant) ==>
              var n := Next(s, step, now);
              if s.rows[step.job.tx].status == QR_GENERATED && step.fate == Committed
              then step.job in n.jobs && n.jobs[step.job].Moved? else step.job !in n.jobs
    ensures step.Move? && step.fate.NotExecuted? ==> Next(s, step, now).rows == s.rows
  {
    hide RequestsAfter, AnnouncedAfter, OneVoice, LeftOk, RowInvariant;
    if step.Move? || step.Check? { assert JobOk(s, step.job); }
  }

  /** Left alone, a claimed job whose check is answered "00" in time announces the payment, in three steps. */
  lemma PaymentGoesThrough(s: State, check: Taken, paid: Time, manjoMerchant: string, moveAt: Time, announceAt: Time,
                           clock: Time)
    requires Inv(s) && AnsweredPaid(check.step, paid, manjoMerchant) && Allowed(s, check.step, check.now)
    requires s.rows[check.step.job.tx].status == QR_GENERATED && check.now <= moveAt <= announceAt
    requires clock - (if paid == 0 then s.rows[check.step.job.tx].createdAt else paid) <= 600_000_000_000
    ensures var j, s1 := check.step.job, Next(s, check.step, check.now);
            && Allowed(s1, Move(j, Committed), moveAt)
            && var s2 := Next(s1, Move(j, Committed), moveAt);
               && Allowed(s2, Announce(j, clock), announceAt)
               && Next(s2, Announce(j, clock), announceAt).announced
                  == s.announced + [Said(s.rows[j.tx], j.tx, manjoMerchant)]
  {
    hide RowsAfter, RequestsAfter, JobsAfter, AnnouncedAfter, Inv, CarriesPayment, Decide;
    var s1 := Next(s, check.step, check.now);
    CheckLeavesRows(s, check.step, check.now);
    StepKeeps(s, check.step, check.now);
    PaymentStarts(s, check.step, check.now, paid, manjoMerchant);
    PaymentMoves(s, check.step, check.now, paid, manjoMerchant);
    AnnounceDecides(s, check.step, check.now);
    DecidedGoesThrough(s1, check.step.job, paid, manjoMerchant, moveAt, announceAt, clock);
  }

  lemma DecidedGoesThrough(s: State, j: JobId, paid: Time, manjoMerchant: string, moveAt: Time, announceAt: Time,
                           clock: Time)
    requires Inv(s) && CarriesPayment(s, j, paid, manjoMerchant) && s.clock <= moveAt <= announceAt
    requires j in s.jobs && s.jobs[j].Deciding? && j.tx in s.rows && s.rows[j.tx].status == QR_GENERATED
    requires clock - (if paid == 0 then s.rows[j.tx].createdAt else paid) <= 600_000_000_000
    ensures Allowed(s, Move(j, Committed), moveAt)
    ensures var n := Next(s, Move(j, Committed), moveAt);
            && Allowed(n, Announce(j, clock), announceAt)
            && Next(n, Announce(j, clock), announceAt).announced
               == s.announced + [Said(s.rows[j.tx], j.tx, manjoMerchant)]
  {
    hide RowsAfter, RequestsAfter, JobsAfter, AnnouncedAfter, Inv, CarriesPayment, RowInvariant, Later;
    var move, t := Move(j, Committed), Taken(Announce(j, clock), announceAt);
    var n := Next(s, move, moveAt);
    StepKeeps(s, move, moveAt);
    PaymentStep(s, move, moveAt, j, paid, manjoMerchant);
    PaymentMoves(s, move, moveAt, paid, manjoMerchant);
    AnnounceDecides(s, move, moveAt);
    CarriedIsMoved(n, t, paid, manjoMerchant);
    AnnounceDecides(n, t.step, t.now);
    SameDevice(s, n, j.tx);
  }

  lemma CheckLeavesRows(s: State, step: Step, now: Time)
    requires Inv(s) && step.Check? && Allowed(s, step, now)
    ensures step.job.tx in s.rows && Next(s, step, now).rows == s.rows && Next(s, step, now).clock == now
  {
    assert JobOk(s, step.job);
  }

  lemma SameDevice(s: State, n: State, id: TxId)
    requires Extends(s, n) && id in s.rows
    ensures id in n.rows && n.rows[id].device == s.rows[id].device && n.rows[id].amount == s.rows[id].amount
    ensures n.rows[id].createdAt == s.rows[id].createdAt
  {
  }

  // ----- when a paid row has its time -----------------------------------------------------

  /** A check answered PAID whose time, Manjo's or else the service's own, is the zero time. */
  predicate PaidAtZero(t: Taken, id: TxId) {
    && t.step.Check? && t.step.job.tx == id && t.step.query.Asked?
    && t.step.query.answer.Answered? && t.step.query.answer.latestStatus == "00"
    && 0 == if t.step.query.answer.paidTime.Some? then t.step.query.answer.paidTime.value else t.step.queriedAt
  }

  /** The row is PAID, or about to be, without a time. */
  predicate Untimed(s: State, id: TxId) {
    || (id in s.rows && s.rows[id].status == PAID && s.rows[id].paidAt.None?)
    || exists j :: j in s.jobs && j.tx == id && s.jobs[j].Deciding?
                   && s.jobs[j].outcome.status == Some(PAID) && s.jobs[j].outcome.paidAt.None?
  }

  lemma TimelessIsZero(tx: Row, q: Query, queriedAt: Time, now: Time)
    ensures var o := Decide(tx, q, queriedAt, now);
            o.status == Some(PAID) && o.paidAt.None? ==>
              && q.Asked? && q.answer.Answered? && q.answer.latestStatus == "00"
              && 0 == if q.answer.paidTime.Some? then q.answer.paidTime.value else queriedAt
  {
  }

  lemma StaysTimed(s: State, taken: Taken, id: TxId)
    requires Inv(s) && Allowed(s, taken.step, taken.now) && !Untimed(s, id) && !PaidAtZero(taken, id)
    ensures !Untimed(Next(s, taken.step, taken.now), id)
  {
    hide RequestsAfter, AnnouncedAfter, OneVoice, LeftOk, Decide, Later;
    var step, now := taken.step, taken.now;
    var n := Next(s, step, now);
    if step.Check? && step.job in s.jobs && s.jobs[step.job].Claimed? {
      TimelessIsZero(s.jobs[step.job].tx, step.query, step.queriedAt, step.now);
    }
    RowMoves(s, step, now, id);
    forall j | j in n.jobs && j.tx == id && n.jobs[j].Deciding?
      ensures !(n.jobs[j].outcome.status == Some(PAID) && n.jobs[j].outcome.paidAt.None?)
    {
      JobOrigin(s, step, now, j);
    }
    if id in s.rows { assert RowInvariant(s.rows[id]); }
    if step.Move? { assert JobOk(s, step.job); }
  }

  lemma {:induction false} RunStaysTimed(s: State, run: seq<Taken>, id: TxId)
    requires Inv(s) && Possible(s, run) && !Untimed(s, id)
    requires forall i :: 0 <= i < |run| ==> !PaidAtZero(run[i], id)
    ensures !Untimed(After(s, run), id)
    decreases |run|
  {
    hide Inv, Next, Allowed, Untimed;
    if run != [] {
      StepKeeps(s, run[0].step, run[0].now);
      StaysTimed(s, run[0], id);
      RunStaysTimed(Next(s, run[0].step, run[0].now), run[1..], id);
    }
  }

  /** A PAID row lacks paid_at only if a check of that very row was answered with the zero time. */
  lemma PaidRowsHaveTheirTime(run: seq<Taken>, id: TxId)
    requires Possible(INIT, run) && id in After(INIT, run).rows
    requires After(INIT, run).rows[id].status == PAID && After(INIT, run).rows[id].paidAt.None?
    ensures exists i :: 0 <= i < |run| && PaidAtZero(run[i], id)
  {
    if forall i :: 0 <= i < |run| ==> !PaidAtZero(run[i], id) { RunStaysTimed(INIT, run, id); }
  }

  // ----- the statements of a run ----------------------------------------------------------

  /** The statements a run sends to the database, in order. */
  function StatementTrace(s: State, run: seq<Taken>): seq<Timed>
    requires Possible(s, run)
    decreases |run|
  {
    if run == [] then []
    else
      var stmt := StatementOf(s, run[0].step);
      (if stmt.Some? then [Timed(run[0].now, stmt.value)] else [])
      + StatementTrace(Next(s, run[0].step, run[0].now), run[1..])
  }

  lemma {:induction false} EarlierClock(rows: Rows, clock: Time, later: Time, trace: seq<Timed>)
    requires clock <= later && Executable(rows, later, trace)
    ensures Executable(rows, clock, trace) && ExecAll(rows, clock, trace) == ExecAll(rows, later, trace)
    ensures DisciplinedTrace(rows, later, trace) ==> DisciplinedTrace(rows, clock, trace)
  {
  }

  /** No QR is stored with a next check that the database's clock has passed already. */
  predicate TimelyRun(run: seq<Taken>) {
    forall i :: 0 <= i < |run| && run[i].step.Mark? && run[i].step.stmt.MarkQr? ==>
                run[i].now < run[i].step.stmt.nextQueryAt
  }

  /** The table sees a run as one executable, disciplined trace. */
  lemma {:induction false} RunIsDisciplined(s: State, run: seq<Taken>)
    requires Inv(s) && Possible(s, run)
    ensures var trace := StatementTrace(s, run);
            && Executable(s.rows, s.clock, trace)
            && DisciplinedTrace(s.rows, s.clock, trace)
            && ExecAll(s.rows, s.clock, trace) == After(s, run).rows
            && (TimelyRun(run) ==> TimelyTrace(trace))
    decreases |run|
  {
    hide RowInvariant, Later, LeftOk, OneVoice, Truthful, Extends, JobsAfter, AnnouncedAfter;
    if run != [] {
      var step, now := run[0].step, run[0].now;
      var n := Next(s, step, now);
      StepKeeps(s, step, now);
      RunIsDisciplined(n, run[1..]);
      var rest := StatementTrace(n, run[1..]);
      var stmt := StatementOf(s, step);
      if stmt.Some? {
        if step.Move? { assert JobOk(s, step.job); }
        var head := Timed(now, stmt.value);
        assert StatementTrace(s, run) == [head] + rest;
        assert Disciplined(s.rows, head);
        assert ([head] + rest)[1..] == rest;
      } else {
        assert StatementTrace(s, run) == rest;
        EarlierClock(s.rows, s.clock, now, rest);
      }
    }
  }

  // ----- progress past the deadline -------------------------------------------------------

  predicate ClaimsTx(t: Taken, id: TxId) {
    t.step.ClaimBatch? && t.step.stmt.Claim? && id in t.step.stmt.picked
  }

  /** A check of this transaction whose UPDATE took effect, reported or not. */
  predicate UpdatesTx(t: Taken, id: TxId) {
    t.step.Move? && t.step.job.tx == id && !t.step.fate.NotExecuted?
  }

  lemma {:induction false} ClaimInTrace(s: State, run: seq<Taken>, id: TxId, i: nat)
    requires Possible(s, run) && i < |StatementTrace(s, run)| && Picks(StatementTrace(s, run)[i], id)
    ensures exists k :: 0 <= k < |run| && ClaimsTx(run[k], id)
    decreases |run|
  {
    var stmt := StatementOf(s, run[0].step);
    var n := Next(s, run[0].step, run[0].now);
    var skipped := if stmt.Some? then 1 else 0;
    if i < skipped {
      assert ClaimsTx(run[0], id);
    } else {
      ClaimInTrace(n, run[1..], id, i - skipped);
      var k :| 0 <= k < |run[1..]| && ClaimsTx(run[1..][k], id);
      assert ClaimsTx(run[k + 1], id);
    }
  }

  lemma UpdateFinishes(s: State, taken: Taken, id: TxId)
    requires Inv(s) && Allowed(s, taken.step, taken.now) && UpdatesTx(taken, id)
    ensures var n := Next(s, taken.step, taken.now); id in n.rows && Final(n.rows[id].status)
  {
    assert JobOk(s, taken.step.job);
    RowMoves(s, taken.step, taken.now, id);
  }

  lemma FinalStays(s: State, n: State, id: TxId)
    requires Extends(s, n) && id in s.rows && Final(s.rows[id].status)
    ensures id in n.rows && Final(n.rows[id].status)
  {
  }

  lemma {:induction false} UpdatedRowIsFinal(s: State, run: seq<Taken>, id: TxId, k: nat)
    requires Inv(s) && Possible(s, run) && k < |run| && UpdatesTx(run[k], id)
    ensures id in After(s, run).rows && Final(After(s, run).rows[id].status)
    decreases |run|
  {
    hide Inv, Next, RowsAfter, Later, Allowed;
    var step, now := run[0].step, run[0].now;
    var n := Next(s, step, now);
    StepKeeps(s, step, now);
    if k == 0 {
      UpdateFinishes(s, run[0], id);
      RunKeeps(n, run[1..]);
      FinalStays(n, After(n, run[1..]), id);
    } else {
      UpdatedRowIsFinal(n, run[1..], id, k - 1);
    }
  }

  /** A check that runs past the row's own deadline always asks for a transition, however stale
      the copy it works on: the copy's deadline is the row's. */
  lemma PastDeadlineDecides(s: State, step: Step, now: Time)
    requires Inv(s) && Allowed(s, step, now) && step.Check?
    requires step.job.tx in s.rows && step.now > ExpiryDeadline(s.rows[step.job.tx])
    ensures step.job in Next(s, step, now).jobs && Next(s, step, now).jobs[step.job].Deciding?
    ensures var o, q := Next(s, step, now).jobs[step.job].outcome, step.query;
            && (o.status == Some(PAID) <==> Reports(q, "00")) && (o.status == Some(REFUNDED) <==> Reports(q, "04"))
            && (o.status == Some(CANCELLED) <==> Reports(q, "05")) && (o.status == Some(FAILED) <==> Reports(q, "06"))
            && (o.status == Some(EXPIRED) <==> RefusedAsExpired(q) || !FinalAnswer(q))
            && (Reports(q, "00") ==> Dated(q, step.queriedAt, o.paidAt))
            && o.code == if o.status == Some(EXPIRED) then None else Some(q.answer.latestStatus)
  {
    assert JobOk(s, step.job);
    DecideIsComplete(s.jobs[step.job].tx, step.query, step.queriedAt, step.now);
  }

  // what becomes of the jobs that a run creates for one row

  /** The job is one that a claim at or after `from` created for the row. */
  predicate NewJob(j: JobId, id: TxId, from: nat) { j.tx == id && j.claim >= from }

  /** The claims of the row reach their pollers, and no poller crashes or loses the database on a job of
      the row before its UPDATE. */
  predicate Undisturbed(run: seq<Taken>, id: TxId, from: nat) {
    forall i :: 0 <= i < |run| ==>
      match run[i].step
      case ClaimBatch(stmt, replyLost) => ClaimsTx(run[i], id) ==> !replyLost
      case Crash(j) => !NewJob(j, id, from)
      case Move(j, fate) => NewJob(j, id, from) ==> !fate.NotExecuted?
      case _ => true
  }

  /** Every check of such a job is made past the deadline. */
  predicate CheckedLate(run: seq<Taken>, id: TxId, from: nat, deadline: Time) {
    forall i :: 0 <= i < |run| && run[i].step.Check? && NewJob(run[i].step.job, id, from) ==> run[i].step.now > deadline
  }

  /** No such job is still under way. */
  predicate AllEnded(s: State, id: TxId, from: nat) {
    forall j :: j in s.jobs ==> !NewJob(j, id, from)
  }

  /** One step on a job that is not moved yet: it stays so with the same deadline, or this step is its UPDATE. */
  lemma JobGoesOn(s: State, taken: Taken, j: JobId)
    requires Inv(s) && Allowed(s, taken.step, taken.now) && j in s.jobs && !s.jobs[j].Moved? && j.tx in s.rows
    requires Undisturbed([taken], j.tx, j.claim) && CheckedLate([taken], j.tx, j.claim, ExpiryDeadline(s.rows[j.tx]))
    requires !(taken.step.Move? && taken.step.job == j)
    ensures var n := Next(s, taken.step, taken.now);
            && j in n.jobs && !n.jobs[j].Moved? && j.tx in n.rows
               && ExpiryDeadline(n.rows[j.tx]) == ExpiryDeadline(s.rows[j.tx])
  {
    hide RowsAfter, RequestsAfter, AnnouncedAfter, RowInvariant, Decide, OneVoice, LeftOk;
    assert JobOk(s, j);
    assert [taken][0] == taken;
    StepExtends(s, taken.step, taken.now);
    if taken.step.Check? && taken.step.job == j { PastDeadlineDecides(s, taken.step, taken.now); }
  }

  /** A job checked past the deadline ends with its UPDATE. */
  lemma {:induction false} JobUpdates(s: State, run: seq<Taken>, j: JobId)
    requires Inv(s) && Possible(s, run) && j in s.jobs && !s.jobs[j].Moved? && j.tx in s.rows
             && j !in After(s, run).jobs
    requires Undisturbed(run, j.tx, j.claim) && CheckedLate(run, j.tx, j.claim, ExpiryDeadline(s.rows[j.tx]))
    ensures exists k :: 0 <= k < |run| && UpdatesTx(run[k], j.tx)
    decreases |run|
  {
    hide Inv, Next, Allowed;
    var n := Next(s, run[0].step, run[0].now);
    StepKeeps(s, run[0].step, run[0].now);
    assert run[0] == [run[0]][0];
    if run[0].step.Move? && run[0].step.job == j {
      assert UpdatesTx(run[0], j.tx);
    } else {
      JobGoesOn(s, run[0], j);
      JobUpdates(n, run[1..], j);
      var k :| 0 <= k < |run[1..]| && UpdatesTx(run[1..][k], j.tx);
      assert UpdatesTx(run[k + 1], j.tx);
    }
  }

  /** A claim of the row starts a job for it. */
  lemma ClaimStarts(s: State, taken: Taken, id: TxId)
    requires Inv(s) && Allowed(s, taken.step, taken.now) && ClaimsTx(taken, id) && !taken.step.replyLost
    ensures var n := Next(s, taken.step, taken.now);
            JobId(s.claims, id) in n.jobs && n.jobs[JobId(s.claims, id)].Claimed? && id in n.rows
  {
    assert Due(s.rows[id], taken.now, taken.step.stmt.merchantFilter);
    StepExtends(s, taken.step, taken.now);
  }

  lemma DeadlineKept(s: State, n: State, id: TxId)
    requires Extends(s, n) && id in s.rows && s.rows[id].status != PENDING
    ensures id in n.rows && n.rows[id].status != PENDING && ExpiryDeadline(n.rows[id]) == ExpiryDeadline(s.rows[id])
  {
  }

  lemma {:induction false} ClaimUpdates(s: State, run: seq<Taken>, id: TxId, m: nat)
    requires Inv(s) && Possible(s, run) && id in s.rows && s.rows[id].status != PENDING && m < |run|
             && ClaimsTx(run[m], id)
    requires Undisturbed(run, id, s.claims) && CheckedLate(run, id, s.claims, ExpiryDeadline(s.rows[id]))
    requires AllEnded(After(s, run), id, s.claims)
    ensures exists k :: m < k < |run| && UpdatesTx(run[k], id)
    decreases |run|
  {
    hide Inv, Next, Allowed;
    var n, rest := Next(s, run[0].step, run[0].now), run[1..];
    StepKeeps(s, run[0].step, run[0].now);
    DeadlineKept(s, n, id);
    if m == 0 {
      ClaimStarts(s, run[0], id);
      JobUpdates(n, rest, JobId(s.claims, id));
      var k :| 0 <= k < |rest| && UpdatesTx(rest[k], id);
      assert UpdatesTx(run[k + 1], id);
    } else {
      ClaimUpdates(n, rest, id, m - 1);
      var k :| m - 1 < k < |rest| && UpdatesTx(rest[k], id);
      assert UpdatesTx(run[k + 1], id);
    }
  }

  /** Progress past the deadline, end to end: take any reachable state, a due row with k rows waiting at
      or before it, and a run with floor(k / 20) + 1 claims that serve its merchant. If the row's jobs are
      checked later than the row's deadline and come to their end undisturbed, the row is final when the
      run ends, whatever Manjo answers and however many other pollers and jobs there are. */
  lemma DueRowLeaves(s: State, run: seq<Taken>, id: TxId)
    requires Inv(s) && Possible(s, run) && TimelyRun(run)
    requires id in s.rows && Due(s.rows[id], s.clock, None)
    requires Served(StatementTrace(s, run), s.rows[id].merchant) >= |Ahead(s.rows, id)| / 20 + 1
    requires Undisturbed(run, id, s.claims) && CheckedLate(run, id, s.claims, ExpiryDeadline(s.rows[id]))
    requires AllEnded(After(s, run), id, s.claims)
    ensures id in After(s, run).rows && Final(After(s, run).rows[id].status)
  {
    forall i | 0 <= i < |run| && ClaimsTx(run[i], id) ensures exists k :: i < k < |run| && UpdatesTx(run[k], id) {
      ClaimUpdates(s, run, id, i);
    }
    UpdatedRowLeaves(s, run, id);
  }

  /** The same when every claim of the row is known to be followed by an UPDATE. */
  lemma UpdatedRowLeaves(s: State, run: seq<Taken>, id: TxId)
    requires Inv(s) && Possible(s, run) && TimelyRun(run)
    requires id in s.rows && Due(s.rows[id], s.clock, None)
    requires Served(StatementTrace(s, run), s.rows[id].merchant) >= |Ahead(s.rows, id)| / 20 + 1
    requires forall i :: 0 <= i < |run| && ClaimsTx(run[i], id) ==> exists k :: i < k < |run| && UpdatesTx(run[k], id)
    ensures id in After(s, run).rows && Final(After(s, run).rows[id].status)
  {
    var trace := StatementTrace(s, run);
    RunIsDisciplined(s, run);
    RunKeeps(s, run);
    ClaimFairness(s.rows, s.clock, trace, id);
    if i :| 0 <= i < |trace| && Picks(trace[i], id) {
      ClaimInTrace(s, run, id, i);
      var m :| 0 <= m < |run| && ClaimsTx(run[m], id);
      var k :| m < k < |run| && UpdatesTx(run[k], id);
      UpdatedRowIsFinal(s, run, id, k);
    }
  }

  // ----- one such run ---------------------------------------------------------------------

  const ONE_ROW := Row("m", "d", 1, QR_GENERATED, None, Some("qr"), Some("ref"), Some("ext"), Some(0), 0, None, 0,
      Some(0))
  const ONE_DUE := State(map["t" := ONE_ROW], 0, map[], {}, 0, map[], [], [])
  const ONE_JOB := JobId(0, "t")
  const ONE_CLAIM := Taken(ClaimBatch(Claim(None, 3 * SECOND, BATCH_SIZE, {"t"}), false), 1)
  const ONE_CHECK := Taken(Check(ONE_JOB, DeviceUnknown, 1, 3 * MINUTE), 1)
  const ONE_MOVE := Taken(Move(ONE_JOB, Committed), 1)
  const ONE_END := Taken(Announce(ONE_JOB, 1), 1)

  lemma OneDueIsInOrder()
    ensures Inv(ONE_DUE)
  {
  }

  lemma OneClaimed() returns (s1: State)
    ensures Allowed(ONE_DUE, ONE_CLAIM.step, 1) && s1 == Next(ONE_DUE, ONE_CLAIM.step, 1)
    ensures s1.clock == 1 && ONE_JOB in s1.jobs && s1.jobs.Keys == {ONE_JOB}
    ensures s1.jobs[ONE_JOB] == Claimed(ONE_ROW.(nextQueryAt := Some(1 + 3 * SECOND), updatedAt := 1))
    ensures s1.rows == map["t" := ONE_ROW.(nextQueryAt := Some(1 + 3 * SECOND), updatedAt := 1)]
  {
    assert Selection(ONE_DUE.rows, 1, None, BATCH_SIZE, {"t"});
    s1 := Next(ONE_DUE, ONE_CLAIM.step, 1);
  }

  lemma OneEnds(s1: State) returns (s2: State, s3: State, s4: State)
    requires s1.clock == 1 && ONE_JOB in s1.jobs && s1.jobs.Keys == {ONE_JOB}
    requires s1.jobs[ONE_JOB] == Claimed(ONE_ROW.(nextQueryAt := Some(1 + 3 * SECOND), updatedAt := 1))
    requires s1.rows == map["t" := ONE_ROW.(nextQueryAt := Some(1 + 3 * SECOND), updatedAt := 1)]
    ensures Allowed(s1, ONE_CHECK.step, 1) && s2 == Next(s1, ONE_CHECK.step, 1)
    ensures Allowed(s2, ONE_MOVE.step, 1) && s3 == Next(s2, ONE_MOVE.step, 1)
    ensures Allowed(s3, ONE_END.step, 1) && s4 == Next(s3, ONE_END.step, 1)
    ensures s4.jobs == map[]
  {
    s2 := Next(s1, ONE_CHECK.step, 1);
    s3 := Next(s2, ONE_MOVE.step, 1);
    s4 := Next(s3, ONE_END.step, 1);
  }

  /** A due row, one claim, one check past the deadline: all that DueRowLeaves asks for. */
  lemma OneRowLeaves()
    ensures var run := [ONE_CLAIM, ONE_CHECK, ONE_MOVE, ONE_END];
            && Inv(ONE_DUE) && Possible(ONE_DUE, run) && TimelyRun(run) && Due(ONE_ROW, ONE_DUE.clock, None)
            && Served(StatementTrace(ONE_DUE, run), "m") >= |Ahead(ONE_DUE.rows, "t")| / 20 + 1
            && Undisturbed(run, "t", 0) && CheckedLate(run, "t", 0, ExpiryDeadline(ONE_ROW))
            && AllEnded(After(ONE_DUE, run), "t", 0)
  {
    hide Inv, Next, Allowed, StatementOf, Possible, After, StatementTrace, Ahead, ExpiryDeadline;
    OneDueIsInOrder();
    var s1 := OneClaimed();
    var s2, s3, s4 := OneEnds(s1);
    var run := [ONE_CLAIM, ONE_CHECK, ONE_MOVE, ONE_END];
    assert [ONE_MOVE] + [ONE_END] == [ONE_MOVE, ONE_END];
    assert [ONE_CHECK] + [ONE_MOVE, ONE_END] == [ONE_CHECK, ONE_MOVE, ONE_END];
    assert [ONE_CLAIM] + [ONE_CHECK, ONE_MOVE, ONE_END] == run;
    assert [ONE_END] + [] == [ONE_END];
    NoStep(s4);
    FirstStep(s3, ONE_END, []);
    FirstStep(s2, ONE_MOVE, [ONE_END]);
    FirstStep(s1, ONE_CHECK, [ONE_MOVE, ONE_END]);
    FirstStep(ONE_DUE, ONE_CLAIM, [ONE_CHECK, ONE_MOVE, ONE_END]);
    ClaimServes(StatementTrace(s1, [ONE_CHECK, ONE_MOVE, ONE_END]));
    OneDeadline();
  }

  lemma NoStep(s: State)
    ensures Possible(s, []) && After(s, []) == s && StatementTrace(s, []) == []
  {
  }

  lemma FirstStep(s: State, t: Taken, rest: seq<Taken>)
    requires Allowed(s, t.step, t.now) && Possible(Next(s, t.step, t.now), rest)
    ensures Possible(s, [t] + rest) && After(s, [t] + rest) == After(Next(s, t.step, t.now), rest)
    ensures StatementTrace(s, [t] + rest) ==
            (if StatementOf(s, t.step).Some? then [Timed(t.now, StatementOf(s, t.step).value)] else [])
            + StatementTrace(Next(s, t.step, t.now), rest)
  {
    hide Next, Allowed, StatementOf;
    assert ([t] + rest)[1..] == rest;
  }

  lemma ClaimServes(rest: seq<Timed>)
    ensures StatementOf(ONE_DUE, ONE_CLAIM.step) == Some(ONE_CLAIM.step.stmt)
    ensures Served([Timed(1, ONE_CLAIM.step.stmt)] + rest, "m") >= 1 && |Ahead(ONE_DUE.rows, "t")| == 0
  {
    assert Ahead(ONE_DUE.rows, "t") == {};
    assert ([Timed(1, ONE_CLAIM.step.stmt)] + rest)[0] == Timed(1, ONE_CLAIM.step.stmt);
  }

  lemma OneDeadline()
    ensures ExpiryDeadline(ONE_ROW) == 2 * MINUTE
  {
  }
}
