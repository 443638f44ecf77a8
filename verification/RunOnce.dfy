/** The worker protocol of Poller.RunOnce: one loop that takes a semaphore slot and starts a
    goroutine per claimed row, the goroutine's deferred calls, and the final wait. Every
    interleaving of the loop and the goroutines is a run. */
module RunOnce {

  const WORKERS := 8

  /** A row's goroutine: not started, in process (which may panic), out of process (returned or
      recovered), its slot given back, its wait-group count given back. */
  datatype Phase = Waiting | Processing | Left | SlotFree | Finished

  /** The loop: about to take a slot for row `next`, holding one for it, waiting, or returned. */
  datatype Main = Acquiring(next: nat) | Starting(next: nat) | Joining | Returned

  datatype State = State(main: Main, slots: nat, pending: int, rows: seq<Phase>, entered: seq<nat>, left: seq<nat>)

  datatype Step =
    | Add                             // wg.Add(1); sem <- struct{}{}
    | Go                              // go func()
    | Join                            // the loop is over
    | Return                          // wg.Wait() falls through
    | Leave(row: nat, panicked: bool) // process returns, or panics and is recovered
    | Release(row: nat)               // <-sem
    | Done(row: nat)                  // wg.Done()

  function Init(n: nat): State {
    State(Acquiring(0), 0, 0, seq(n, i => Waiting), seq(n, i => 0), seq(n, i => 0))
  }

  predicate Enabled(s: State, step: Step) {
    match step
    case Add => s.main.Acquiring? && s.main.next < |s.rows| && s.slots < WORKERS
    case Go => s.main.Starting?
    case Join => s.main.Acquiring? && s.main.next == |s.rows|
    case Return => s.main.Joining? && s.pending == 0
    case Leave(r, _) => r < |s.rows| && s.rows[r] == Processing
    case Release(r) => r < |s.rows| && s.rows[r] == Left && s.slots > 0
    case Done(r) => r < |s.rows| && s.rows[r] == SlotFree
  }

  predicate WellFormed(s: State) {
    && |s.entered| == |s.rows| && |s.left| == |s.rows|
    && (s.main.Starting? ==> s.main.next < |s.rows|)
  }

  function Next(s: State, step: Step): State
    requires WellFormed(s) && Enabled(s, step)
  {
    match step
    case Add => s.(main := Starting(s.main.next), slots := s.slots + 1, pending := s.pending + 1)
    case Go =>
      var r := s.main.next;
      s.(main := Acquiring(r + 1), rows := s.rows[r := Processing], entered := s.entered[r := s.entered[r] + 1])
    case Join => s.(main := Joining)
    case Return => s.(main := Returned)
    case Leave(r, _) => s.(rows := s.rows[r := Left], left := s.left[r := s.left[r] + 1])
    case Release(r) => s.(rows := s.rows[r := SlotFree], slots := s.slots - 1)
    case Done(r) => s.(rows := s.rows[r := Finished], pending := s.pending - 1)
  }

  // ----- counting -------------------------------------------------------------------------

  function Bit(b: bool): nat { if b then 1 else 0 }

  predicate HoldsSlot(p: Phase) { p == Processing || p == Left }

  predicate Unfinished(p: Phase) { HoldsSlot(p) || p == SlotFree }

  function CountSlots(rows: seq<Phase>): nat {
    if rows == [] then 0 else Bit(HoldsSlot(rows[0])) + CountSlots(rows[1..])
  }

  function CountUnfinished(rows: seq<Phase>): nat {
    if rows == [] then 0 else Bit(Unfinished(rows[0])) + CountUnfinished(rows[1..])
  }

  /** Steps a row's goroutine still has ahead of it. */
  function Ahead(p: Phase): nat {
    match p case Waiting => 5 case Processing => 3 case Left => 2 case SlotFree => 1 case Finished => 0
  }

  function CountAhead(rows: seq<Phase>): nat {
    if rows == [] then 0 else Ahead(rows[0]) + CountAhead(rows[1..])
  }

  lemma {:induction false} CountUpdate(rows: seq<Phase>, r: nat, p: Phase)
    requires r < |rows|
    ensures CountSlots(rows[r := p]) == CountSlots(rows) - Bit(HoldsSlot(rows[r])) + Bit(HoldsSlot(p))
    ensures CountUnfinished(rows[r := p]) == CountUnfinished(rows) - Bit(Unfinished(rows[r])) + Bit(Unfinished(p))
    ensures CountAhead(rows[r := p]) == CountAhead(rows) - Ahead(rows[r]) + Ahead(p)
    decreases |rows|
  {
    if r == 0 {
      assert rows[0 := p][1..] == rows[1..];
    } else {
      assert rows[r := p][1..] == rows[1..][r - 1 := p];
      CountUpdate(rows[1..], r - 1, p);
    }
  }

  lemma {:induction false} CountZero(rows: seq<Phase>)
    ensures CountUnfinished(rows) == 0 <==> forall i :: 0 <= i < |rows| ==> !Unfinished(rows[i])
    ensures CountSlots(rows) <= CountUnfinished(rows)
  {
    if rows != [] {
      CountZero(rows[1..]);
      assert forall i :: 0 < i < |rows| ==> rows[i] == rows[1..][i - 1];
      assert forall i :: 0 <= i < |rows| - 1 ==> rows[1..][i] == rows[i + 1];
    }
  }

  // ----- the invariant --------------------------------------------------------------------

  /** Rows before the loop's position were started, the others wait. */
  predicate Started(s: State, r: nat) {
    if s.main.Acquiring? || s.main.Starting? then r < s.main.next else true
  }

  predicate Inv(s: State) {
    && WellFormed(s)
    && (s.main.Acquiring? ==> s.main.next <= |s.rows|)
    && (forall r :: 0 <= r < |s.rows| ==>
          && (s.rows[r] == Waiting <==> !Started(s, r))
          && s.entered[r] == Bit(s.rows[r] != Waiting)
          && s.left[r] == Bit(s.rows[r] != Waiting && s.rows[r] != Processing))
    && s.slots == CountSlots(s.rows) + Bit(s.main.Starting?)
    && s.pending == CountUnfinished(s.rows) + Bit(s.main.Starting?)
    && s.slots <= WORKERS
    && (s.main.Returned? ==> CountUnfinished(s.rows) == 0)
  }

  lemma {:induction false} InitHolds(n: nat)
    ensures Inv(Init(n))
  {
    AllWaiting(n);
  }

  lemma {:induction false} AllWaiting(n: nat)
    ensures CountSlots(seq(n, i => Waiting)) == 0 && CountUnfinished(seq(n, i => Waiting)) == 0
    ensures CountAhead(seq(n, i => Waiting)) == 5 * n
  {
    if n > 0 {
      AllWaiting(n - 1);
      assert seq(n, i => Waiting)[1..] == seq(n - 1, i => Waiting);
    }
  }

  lemma StepKeeps(s: State, step: Step)
    requires Inv(s) && Enabled(s, step)
    ensures Inv(Next(s, step))
  {
    hide CountSlots, CountUnfinished, CountAhead;
    match step {
      case Go => CountUpdate(s.rows, s.main.next, Processing);
      case Leave(r, _) => CountUpdate(s.rows, r, Left);
      case Release(r) => CountUpdate(s.rows, r, SlotFree);
      case Done(r) => CountUpdate(s.rows, r, Finished);
      case _ =>
    }
  }

  // ----- runs -----------------------------------------------------------------------------

  predicate Possible(s: State, run: seq<Step>)
    decreases |run|
  {
    run == [] || (WellFormed(s) && Enabled(s, run[0]) && Possible(Next(s, run[0]), run[1..]))
  }

  function After(s: State, run: seq<Step>): State
    requires Possible(s, run)
    decreases |run|
  {
    if run == [] then s else After(Next(s, run[0]), run[1..])
  }

  /** Work left before RunOnce returns; every step does some of it. */
  function Work(s: State): nat {
    CountAhead(s.rows) + match s.main case Acquiring(_) => 2 case Starting(_) => 1 case Joining => 1 case Returned => 0
  }

  lemma StepWorks(s: State, step: Step)
    requires Inv(s) && Enabled(s, step)
    ensures Work(Next(s, step)) < Work(s)
  {
    match step {
      case Go => CountUpdate(s.rows, s.main.next, Processing);
      case Leave(r, _) => CountUpdate(s.rows, r, Left);
      case Release(r) => CountUpdate(s.rows, r, SlotFree);
      case Done(r) => CountUpdate(s.rows, r, Finished);
      case _ =>
    }
  }

  lemma {:induction false} RunKeeps(s: State, run: seq<Step>)
    requires Inv(s) && Possible(s, run)
    ensures Inv(After(s, run)) && |run| + Work(After(s, run)) <= Work(s) && |After(s, run).rows| == |s.rows|
    decreases |run|
  {
    if run != [] {
      StepKeeps(s, run[0]);
      StepWorks(s, run[0]);
      RunKeeps(Next(s, run[0]), run[1..]);
    }
  }

  /** No deadlock: until RunOnce has returned, some step is possible. */
  lemma SomeStepEnabled(s: State) returns (step: Step)
    requires Inv(s) && !s.main.Returned?
    ensures Enabled(s, step)
    ensures s.main.Acquiring? && s.main.next < |s.rows| && s.slots < 8 ==> step == Add
  {
    match s.main {
      case Starting(_) => step := Go;
      case Acquiring(next) =>
        if next == |s.rows| {
          step := Join;
        } else if s.slots < WORKERS {
          step := Add;
        } else {
          var r := HolderExists(s.rows);
          step := if s.rows[r] == Processing then Leave(r, false) else Release(r);
        }
      case Joining =>
        if s.pending == 0 {
          step := Return;
        } else {
          CountZero(s.rows);
          var r :| 0 <= r < |s.rows| && Unfinished(s.rows[r]);
          if s.rows[r] == Left { SlotTaken(s.rows, r); }
          step := if s.rows[r] == Processing then Leave(r, false) else if s.rows[r] == Left then Release(r)
              else Done(r);
        }
    }
  }

  lemma {:induction false} HolderExists(rows: seq<Phase>) returns (r: nat)
    requires CountSlots(rows) > 0
    ensures r < |rows| && HoldsSlot(rows[r])
  {
    if HoldsSlot(rows[0]) {
      r := 0;
    } else {
      var k := HolderExists(rows[1..]);
      r := k + 1;
    }
  }

  lemma {:induction false} SlotTaken(rows: seq<Phase>, r: nat)
    requires r < |rows| && HoldsSlot(rows[r])
    ensures CountSlots(rows) > 0
  {
    if r > 0 { SlotTaken(rows[1..], r - 1); }
  }

  /** RunOnce on n claimed rows, in every interleaving and whichever rows panic: never more than
      eight goroutines are inside process; when it has returned, every row was processed exactly
      once and has finished; it cannot get stuck before that; and no run is longer than 5n + 2
      steps, so it does return. */
  lemma EveryRowExactlyOnce(n: nat, run: seq<Step>)
    requires Possible(Init(n), run)
    ensures var s := After(Init(n), run);
            && |s.rows| == n == |s.entered| == |s.left|
            && CountSlots(s.rows) <= 8
            && (forall r :: 0 <= r < n ==> s.left[r] <= s.entered[r] <= 1)
            && (s.main.Returned? ==> forall r :: 0 <= r < n ==>
                                                 s.rows[r] == Finished && s.entered[r] == 1 && s.left[r] == 1)
            && (!s.main.Returned? ==> exists step :: Enabled(s, step))
    ensures |run| <= 5 * n + 2
  {
    InitHolds(n);
    AllWaiting(n);
    RunKeeps(Init(n), run);
    var s := After(Init(n), run);
    CountZero(s.rows);
    if !s.main.Returned? { var step := SomeStepEnabled(s); }
    assert s.main.Returned? ==> forall r :: 0 <= r < n ==> !Unfinished(s.rows[r]);
  }
}
