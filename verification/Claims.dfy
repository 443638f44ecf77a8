/** How soon, and how often, the poller claims a row: fairness, spacing and progress past the
    deadline, over every trace of statements that any number of pollers and requests produce. */
module Claims {
  import opened Common
  import opened Transactions

  const BATCH_SIZE := 20

  // ----- discipline of the callers --------------------------------------------------------

  /** What the service's own callers add to what the database enforces: a QR is stored only on a
      PENDING row, and a transition goes to a final state. */
  predicate Disciplined(rows: Rows, t: Timed) {
    match t.stmt
    case MarkQr(id, _, _, _, _, _) => id in rows && rows[id].status == PENDING
    case Transition(_, status, _, _) => Final(status)
    case _ => true
  }

  predicate DisciplinedTrace(rows: Rows, clock: Time, trace: seq<Timed>)
    requires Executable(rows, clock, trace)
    decreases |trace|
  {
    trace != [] ==>
      && Disciplined(rows, trace[0])
      && DisciplinedTrace(Exec(rows, trace[0].stmt, trace[0].now), trace[0].now, trace[1..])
  }

  /** A QR is stored with a next check later than the database's clock: the two clocks differ by less
      than the poll interval. */
  predicate Timely(t: Timed) { t.stmt.MarkQr? ==> t.now < t.stmt.nextQueryAt }

  predicate TimelyTrace(trace: seq<Timed>) {
    forall i :: 0 <= i < |trace| ==> Timely(trace[i])
  }

  predicate Picks(t: Timed, id: TxId) {
    t.stmt.Claim? && id in t.stmt.picked
  }

  /** A full-size claim that the row's merchant passes. */
  predicate Serves(t: Timed, merchant: string) {
    && t.stmt.Claim?
    && t.stmt.batch == 20
    && (t.stmt.merchantFilter.None? || t.stmt.merchantFilter.value == merchant)
  }

  function Served(trace: seq<Timed>, merchant: string): nat {
    if trace == [] then 0
    else (if Serves(trace[0], merchant) then 1 else 0) + Served(trace[1..], merchant)
  }

  /** The other rows waiting for a check at or before this one. */
  function Ahead(rows: Rows, id: TxId): set<TxId>
    requires id in rows
  {
    set x | x in rows && x != id && rows[x].status == QR_GENERATED
            && KeyLe(rows[x].nextQueryAt, rows[id].nextQueryAt)
  }

  lemma SubsetSize<T>(a: set<T>, b: set<T>)
    requires a <= b
    ensures |a| <= |b|
  {
    assert b == a + (b - a);
  }

  // ----- fairness -------------------------------------------------------------------------

  /** One statement that does not pick a waiting row leaves its place in the queue alone, and a
      claim that serves its merchant and misses it takes twenty rows from ahead of it. */
  lemma QueueStep(rows: Rows, t: Timed, id: TxId, clock: Time)
    requires Enabled(rows, t.stmt, t.now) && Disciplined(rows, t) && Timely(t) && clock <= t.now
    requires id in rows && Due(rows[id], clock, None) && !Picks(t, id)
    ensures var after := Exec(rows, t.stmt, t.now);
            && id in after
            && (after[id].status == QR_GENERATED ==>
                  && after[id] == rows[id]
                  && |Ahead(after, id)| + (if Serves(t, rows[id].merchant) then 20 else 0) <= |Ahead(rows, id)|)
  {
    var after := Exec(rows, t.stmt, t.now);
    if after[id].status == QR_GENERATED {
      assert Ahead(after, id) <= Ahead(rows, id);
      if t.stmt.Claim? {
        var picked := t.stmt.picked;
        assert Ahead(after, id) !! picked by {
          forall x | x in Ahead(after, id) ensures x !in picked {}
        }
        if Serves(t, rows[id].merchant) {
          assert Due(rows[id], t.now, t.stmt.merchantFilter);
          assert Before(rows, picked, id);
          assert picked <= Ahead(rows, id) by {
            forall p | p in picked ensures p in Ahead(rows, id) {
              assert Due(rows[p], t.now, t.stmt.merchantFilter);
            }
          }
          SubsetSize(Ahead(after, id) + picked, Ahead(rows, id));
        }
      }
      SubsetSize(Ahead(after, id), Ahead(rows, id));
    }
  }

  /** While a due row keeps being missed, every claim that serves it pays with twenty rows ahead. */
  lemma {:induction false} MissedClaimsPay(rows: Rows, clock: Time, trace: seq<Timed>, id: TxId)
    requires Executable(rows, clock, trace) && DisciplinedTrace(rows, clock, trace) && TimelyTrace(trace)
    requires id in rows && Due(rows[id], clock, None)
    requires forall i :: 0 <= i < |trace| ==> !Picks(trace[i], id)
    ensures id in ExecAll(rows, clock, trace)
    ensures ExecAll(rows, clock, trace)[id].status == QR_GENERATED ==>
              20 * Served(trace, rows[id].merchant) <= |Ahead(rows, id)|
    decreases |trace|
  {
    if trace != [] {
      var t := trace[0];
      var after := Exec(rows, t.stmt, t.now);
      QueueStep(rows, t, id, clock);
      if after[id].status == QR_GENERATED {
        MissedClaimsPay(after, t.now, trace[1..], id);
      } else {
        StaysOut(after, t.now, trace[1..], id);
      }
    }
  }

  /** A row that is past QR_GENERATED is never QR_GENERATED again. */
  lemma {:induction false} StaysOut(rows: Rows, clock: Time, trace: seq<Timed>, id: TxId)
    requires Executable(rows, clock, trace) && id in rows && Final(rows[id].status)
    ensures id in ExecAll(rows, clock, trace) && Final(ExecAll(rows, clock, trace)[id].status)
  {
    FinalRowsAbsorb(rows, clock, trace, id);
  }

  /** Fairness: a due row with k rows at or before it is claimed, or has already left
      QR_GENERATED, once floor(k / 20) + 1 claims that serve its merchant have run. */
  lemma ClaimFairness(rows: Rows, clock: Time, trace: seq<Timed>, id: TxId)
    requires Executable(rows, clock, trace) && DisciplinedTrace(rows, clock, trace) && TimelyTrace(trace)
    requires id in rows && Due(rows[id], clock, None)
    requires Served(trace, rows[id].merchant) >= |Ahead(rows, id)| / 20 + 1
    ensures id in ExecAll(rows, clock, trace)
    ensures (exists i :: 0 <= i < |trace| && Picks(trace[i], id))
            || ExecAll(rows, clock, trace)[id].status != QR_GENERATED
  {
    FinalRowsAbsorb(rows, clock, trace, id);
    if !exists i :: 0 <= i < |trace| && Picks(trace[i], id) {
      MissedClaimsPay(rows, clock, trace, id);
    }
  }

  // ----- spacing --------------------------------------------------------------------------

  /** Nobody claims a waiting row before the next check it carries. */
  lemma {:induction false} NotClaimedBefore(rows: Rows, clock: Time, trace: seq<Timed>, id: TxId, due: Time, j: nat)
    requires Executable(rows, clock, trace) && DisciplinedTrace(rows, clock, trace)
    requires id in rows && rows[id].status != PENDING
    requires rows[id].status == QR_GENERATED ==> rows[id].nextQueryAt == Some(due)
    requires j < |trace| && Picks(trace[j], id)
    ensures due <= trace[j].now
    decreases |trace|
  {
    var t := trace[0];
    var after := Exec(rows, t.stmt, t.now);
    if Final(rows[id].status) {
      FinalNotPicked(rows, clock, trace, id, j);
    } else if Picks(t, id) {
      assert Due(rows[id], t.now, t.stmt.merchantFilter);
      ClockGrows(rows, clock, trace, j);
    } else {
      NotClaimedBefore(after, t.now, trace[1..], id, due, j - 1);
    }
  }

  lemma {:induction false} FinalNotPicked(rows: Rows, clock: Time, trace: seq<Timed>, id: TxId, j: nat)
    requires Executable(rows, clock, trace) && id in rows && Final(rows[id].status) && j < |trace|
    ensures !Picks(trace[j], id)
    decreases |trace|
  {
    var t := trace[0];
    if j == 0 {
      assert Picks(t, id) ==> Due(rows[id], t.now, t.stmt.merchantFilter);
    } else {
      StatementKeeps(rows, t.stmt, t.now, id);
      FinalNotPicked(Exec(rows, t.stmt, t.now), t.now, trace[1..], id, j - 1);
    }
  }

  lemma {:induction false} ClockGrows(rows: Rows, clock: Time, trace: seq<Timed>, j: nat)
    requires Executable(rows, clock, trace) && j < |trace|
    ensures clock <= trace[0].now <= trace[j].now
    decreases |trace|
  {
    if j > 0 {
      ClockGrows(Exec(rows, trace[0].stmt, trace[0].now), trace[0].now, trace[1..], j - 1);
    }
  }

  /** Two claims of one row, by whichever pollers, are at least the first one's interval apart. */
  lemma {:induction false} ClaimSpacing(rows: Rows, clock: Time, trace: seq<Timed>, id: TxId, i: nat, j: nat)
    requires Executable(rows, clock, trace) && DisciplinedTrace(rows, clock, trace)
    requires i < j < |trace| && Picks(trace[i], id) && Picks(trace[j], id)
    ensures trace[j].now >= trace[i].now + trace[i].stmt.interval
    decreases |trace|
  {
    var t := trace[0];
    var after := Exec(rows, t.stmt, t.now);
    if i == 0 {
      assert Due(rows[id], t.now, t.stmt.merchantFilter);
      NotClaimedBefore(after, t.now, trace[1..], id, t.now + t.stmt.interval, j - 1);
    } else {
      ClaimSpacing(after, t.now, trace[1..], id, i - 1, j - 1);
    }
  }

  // ----- progress -------------------------------------------------------------------------

  /** The check that follows a claim reached its UPDATE. */
  predicate Settles(t: Timed, id: TxId) {
    t.stmt.Transition? && t.stmt.id == id
  }

  lemma {:induction false} SettledRowIsFinal(rows: Rows, clock: Time, trace: seq<Timed>, id: TxId, j: nat)
    requires Executable(rows, clock, trace) && DisciplinedTrace(rows, clock, trace)
    requires id in rows && rows[id].status != PENDING && j < |trace| && Settles(trace[j], id)
    ensures id in ExecAll(rows, clock, trace) && Final(ExecAll(rows, clock, trace)[id].status)
    decreases |trace|
  {
    var t := trace[0];
    var after := Exec(rows, t.stmt, t.now);
    if j == 0 {
      StaysOut(after, t.now, trace[1..], id);
    } else {
      SettledRowIsFinal(after, t.now, trace[1..], id, j - 1);
    }
  }

  /** If every claim of a due row is followed by a check that reaches its UPDATE, the row is final after
      floor(k / 20) + 1 claims that serve it and the checks they started. */
  lemma SettledProgress(rows: Rows, clock: Time, trace: seq<Timed>, id: TxId)
    requires Executable(rows, clock, trace) && DisciplinedTrace(rows, clock, trace) && TimelyTrace(trace)
    requires id in rows && Due(rows[id], clock, None)
    requires Served(trace, rows[id].merchant) >= |Ahead(rows, id)| / 20 + 1
    requires forall i :: 0 <= i < |trace| && Picks(trace[i], id) ==>
                         exists j :: i < j < |trace| && Settles(trace[j], id)
    ensures id in ExecAll(rows, clock, trace) && Final(ExecAll(rows, clock, trace)[id].status)
  {
    ClaimFairness(rows, clock, trace, id);
    if i :| 0 <= i < |trace| && Picks(trace[i], id) {
      var j :| i < j < |trace| && Settles(trace[j], id);
      SettledRowIsFinal(rows, clock, trace, id, j);
    } else {
      NeverPending(rows, clock, trace, id);
    }
  }

  lemma {:induction false} NeverPending(rows: Rows, clock: Time, trace: seq<Timed>, id: TxId)
    requires Executable(rows, clock, trace) && DisciplinedTrace(rows, clock, trace)
    requires id in rows && rows[id].status != PENDING
    ensures id in ExecAll(rows, clock, trace) && ExecAll(rows, clock, trace)[id].status != PENDING
    decreases |trace|
  {
    if trace != [] {
      NeverPending(Exec(rows, trace[0].stmt, trace[0].now), trace[0].now, trace[1..], id);
    }
  }
}
