/** What the stride scheduler's choice guarantees over runs: shares in proportion to strides, no
    starvation, and how long its 32-bit pass values last. */
module StrideFair {
  import opened StrideTable
  import opened Wrappers

  function Max(a: int, b: int): int { if a >= b then a else b }

  /** pass[i], with the charge the current slot has coming. */
  function Tp(s: Sched, i: nat): int
    requires Wf(s) && i < NPROC
  {
    s.pass[i] + if i == s.curr then s.strides[i] else 0
  }

  // Slot j's process is RUNNABLE.
  ghost predicate Competes(s: Sched, j: nat)
    requires Wf(s)
  {
    exists p :: Candidate(s, p, j)
  }

  lemma DispatchShape(s: Sched, j: nat)
    requires Wf(s) && Competes(s, j)
    ensures Pick(s).Some? && s.pass[Pick(s).value.1] <= s.pass[j]
    ensures var s1, k := Dispatch(s), Pick(s).value.1;
      && s1.curr == k && s1.strides == s.strides
      && s1.pass == s.pass[s.curr := s.pass[s.curr] + s.strides[s.curr]]
      && s1.ticks == s.ticks[s.curr := s.ticks[s.curr] + 1]
  {
    hide Pick;
    PickIsLeast(s);
    var p :| Candidate(s, p, j);
  }

  /** One dispatch never puts i more than two strides ahead of a competing j, nor further ahead
      than it was. */
  lemma FairDispatch(s: Sched, i: nat, j: nat)
    requires Wf(s) && i < NPROC && j < NPROC && i != j && Competes(s, j)
    requires forall k | 0 <= k < NPROC :: s.strides[k] >= 0
    ensures var s1 := Dispatch(s); Tp(s1, i) - s1.pass[j] <= Max(Tp(s, i) - s.pass[j], 2 * s.strides[i])
  {
    hide Pick;
    hide Dispatch;
    DispatchShape(s, j);
  }

  /** Two strides, not one: that much is reached whenever the current slot is picked again on
      equal pass values. */
  lemma TwoStridesReached(s: Sched, j: nat)
    requires Wf(s) && j < NPROC && j != s.curr && Competes(s, j)
    requires Pick(s).Some? && Pick(s).value.1 == s.curr && s.pass[s.curr] == s.pass[j]
    ensures var s1 := Dispatch(s); Tp(s1, s.curr) - s1.pass[j] == 2 * s.strides[s.curr]
  {
    hide Pick;
    hide Dispatch;
    DispatchShape(s, j);
  }

  // ---------------------------------------------------------------- proportional share

  // Slot i stays in use with its stride over one step.
  ghost predicate Steady(s: Sched, s1: Sched, i: nat)
    requires Wf(s) && Wf(s1) && i < NPROC
  {
    s.inuse[i] && s1.inuse[i] && s1.strides[i] == s.strides[i]
  }

  /** Over the whole run slots i and j stay in use and keep their strides, and j's process is
      RUNNABLE whenever the scheduler chooses.  All else is free: other processes fork, exit,
      sleep, wake and change their tickets. */
  ghost predicate Contest(s: Sched, run: seq<Event>, i: nat, j: nat)
    requires Wf(s) && i < NPROC && j < NPROC
    decreases |run|
  {
    run != [] ==>
      var r := Step(s, run[0]);
      && r.Some? && Steady(s, r.value, i) && Steady(s, r.value, j)
      && (run[0].Schedule? ==> Competes(s, j))
      && Contest(r.value, run[1..], i, j)
  }

  // What one step does to a steady slot.
  lemma SteadyStep(s: Sched, ev: Event, s1: Sched, i: nat)
    requires Inv(s) && i < NPROC && Step(s, ev) == Some(s1) && Steady(s, s1, i)
    ensures ev.Schedule? || (s1.pass[i] == s.pass[i] && s1.ticks[i] == s.ticks[i] && s1.curr == s.curr)
    ensures s1.pass[i] - s.pass[i] == s.strides[i] * (s1.ticks[i] - s.ticks[i])
    ensures s1.pass[i] >= s.pass[i]
  {
    hide PidsOk;
    hide SlotsOk;
    hide Pick;
    hide FirstUnused;
    hide FreeSlot;
    if ev.Schedule? { ChargeShape(s); }
  }

  lemma ChargeShape(s: Sched)
    requires Wf(s)
    ensures var s1 := Dispatch(s);
      && s1.strides == s.strides
      && (s1 == s || (s1.pass == s.pass[s.curr := s.pass[s.curr] + s.strides[s.curr]] && s1.ticks == s.ticks[s.curr := s.ticks[s.curr] + 1]))
  {
  }

  lemma FairStep(s: Sched, ev: Event, s1: Sched, i: nat, j: nat)
    requires Inv(s) && i < NPROC && j < NPROC && i != j && Step(s, ev) == Some(s1) && Steady(s, s1, i) && Steady(s, s1, j)
    requires ev.Schedule? ==> Competes(s, j)
    ensures Tp(s1, i) - s1.pass[j] <= Max(Tp(s, i) - s.pass[j], 2 * s.strides[i])
  {
    hide PidsOk;
    hide SlotsOk;
    hide Dispatch;
    if ev.Schedule? {
      FairDispatch(s, i, j);
    } else {
      SteadyStep(s, ev, s1, i);
      SteadyStep(s, ev, s1, j);
    }
  }

  /** Over a run of any length, i never gets more than two strides (or its head start) ahead of
      a competing j, and a slot's pass grows by its stride a tick. */
  lemma {:induction false} FairRun(s: Sched, run: seq<Event>, i: nat, j: nat)
    requires Inv(s) && i < NPROC && j < NPROC && i != j && Contest(s, run, i, j) && Run(s, run).Some?
    ensures var s1 := Run(s, run).value;
      && s1.strides[i] == s.strides[i] && s1.strides[j] == s.strides[j]
      && Tp(s1, i) - s1.pass[j] <= Max(Tp(s, i) - s.pass[j], 2 * s.strides[i])
      && s1.pass[i] - s.pass[i] == s.strides[i] * (s1.ticks[i] - s.ticks[i])
      && s1.pass[j] - s.pass[j] == s.strides[j] * (s1.ticks[j] - s.ticks[j])
    decreases |run|
  {
    hide Step;
    hide PidsOk;
    hide SlotsOk;
    hide StridesOk;
    if run != [] {
      var m := Step(s, run[0]).value;
      StepInv(s, run[0]);
      FairStep(s, run[0], m, i, j);
      SteadyStep(s, run[0], m, i);
      SteadyStep(s, run[0], m, j);
      FairRun(m, run[1..], i, j);
      var s1 := Run(s, run).value;
      Distribute(s.strides[i], m.ticks[i] - s.ticks[i], s1.ticks[i] - m.ticks[i]);
      Distribute(s.strides[j], m.ticks[j] - s.ticks[j], s1.ticks[j] - m.ticks[j]);
    }
  }

  lemma Distribute(a: int, b: int, c: int)
    ensures a * (b + c) == a * b + a * c
  {
  }

  /** The ticks i gains over a run. */
  function Gained(s: Sched, s1: Sched, i: nat): int
    requires Wf(s) && Wf(s1) && i < NPROC
  {
    s1.ticks[i] - s.ticks[i]
  }

  /** Proportional share: the ticks of two competitors, weighed by their strides, differ by a
      bound fixed at the start of the run, however long it is. */
  lemma ProportionalShare(s: Sched, run: seq<Event>, i: nat, j: nat)
    requires Inv(s) && i < NPROC && j < NPROC && i != j
    requires Contest(s, run, i, j) && Contest(s, run, j, i) && Run(s, run).Some?
    ensures var s1, d := Run(s, run).value, s.pass[i] - s.pass[j];
      && s.strides[i] * Gained(s, s1, i) - s.strides[j] * Gained(s, s1, j) <= Max(Tp(s, i) - s.pass[i], 2 * s.strides[i] - d)
      && s.strides[j] * Gained(s, s1, j) - s.strides[i] * Gained(s, s1, i) <= Max(Tp(s, j) - s.pass[j], 2 * s.strides[j] + d)
  {
    hide Run;
    hide Contest;
    FairRun(s, run, i, j);
    FairRun(s, run, j, i);
    RunInv(s, run);
  }

  // ---------------------------------------------------------------- no starvation

  /** How many steps of size step lead from 0 past x. */
  function Gap(x: int, step: int): (g: nat)
    requires step >= 1
    decreases if x < 0 then 0 else x + 1
  {
    if x < 0 then 0 else 1 + Gap(x - step, step)
  }

  /** In closed form: the least number of steps whose sum exceeds x. */
  lemma {:induction false} GapIsLeast(x: int, step: int)
    requires step >= 1
    ensures Gap(x, step) * step > x && (x >= 0 ==> (Gap(x, step) - 1) * step <= x)
    decreases if x < 0 then 0 else x + 1
  {
    if x >= 0 { GapIsLeast(x - step, step); }
  }

  /** How often slot k can still be picked ahead of a waiting j. */
  function Budget(s: Sched, j: nat, k: nat): nat
    requires Wf(s) && j < NPROC && k < NPROC
  {
    if k == j || s.strides[k] < 1 then 0
    else
      var g := Gap(Tp(s, j) - Tp(s, k), s.strides[k]);
      if g > 0 then g + 1 else if k == s.curr && s.pass[k] <= Tp(s, j) then 1 else 0
  }

  function BudgetBelow(s: Sched, j: nat, n: nat): nat
    requires Wf(s) && j < NPROC && n <= NPROC
  {
    if n == 0 then 0 else BudgetBelow(s, j, n - 1) + Budget(s, j, n - 1)
  }

  /** A bound on how many dispatches can pass j over, from the pass values alone. */
  function WaitBound(s: Sched, j: nat): nat
    requires Wf(s) && j < NPROC
  {
    BudgetBelow(s, j, NPROC)
  }

  // Slot k has stride 0, which settickets gives for more than 16384 tickets, and goes before j.
  ghost predicate Blocks(s: Sched, k: nat, j: nat)
    requires Wf(s)
  {
    && k < NPROC && j < NPROC && k != j && s.inuse[k] && s.strides[k] < 1
    && (s.pass[k] < Tp(s, j) || (s.pass[k] == Tp(s, j) && GoesAfter(s, k, j)))
  }

  ghost predicate GoesAfter(s: Sched, k: nat, j: nat)
    requires Wf(s)
  {
    exists p, q :: Owns(s, p, k) && Owns(s, q, j) && Rank(p, k) > Rank(q, j)
  }

  ghost predicate Blocked(s: Sched, j: nat)
    requires Wf(s)
  {
    exists k :: Blocks(s, k, j)
  }

  /** Nobody is blocked while all tickets are in the range the interface documents. */
  lemma InRangeNotBlocked(s: Sched, j: nat)
    requires Inv(s) && forall k | 0 <= k < NPROC && s.inuse[k] :: s.tickets[k] <= MAX_STRIDE
    ensures !Blocked(s, j)
  {
    hide PidsOk;
    hide SlotsOk;
    hide GoesAfter;
    forall k | 0 <= k < NPROC && s.inuse[k] ensures s.strides[k] >= 1 { StridePositive(s.tickets[k]); }
  }

  lemma StridePositive(t: int)
    requires 1 <= t
    ensures MAX_STRIDE / t >= 1 <==> t <= MAX_STRIDE
  {
  }

  /** In the run no slot is filled and no tickets change, and at every choice j's process is
      RUNNABLE yet not chosen. */
  ghost predicate Waits(s: Sched, run: seq<Event>, j: nat)
    requires Wf(s)
    decreases |run|
  {
    run != [] ==>
      && !run[0].AddPstat? && !run[0].Tickets?
      && (run[0].Schedule? ==> Competes(s, j) && Pick(s).Some? && Pick(s).value.1 != j)
      && (var r := Step(s, run[0]); r.Some? ==> Waits(r.value, run[1..], j))
  }

  function Schedules(run: seq<Event>): nat
  {
    if run == [] then 0 else (if run[0].Schedule? then 1 else 0) + Schedules(run[1..])
  }

  // A pick that passes j over has a stride of at least one, unless something blocks j.
  lemma PickedMoves(s: Sched, j: nat)
    requires Inv(s) && j < NPROC && Competes(s, j) && Pick(s).Some? && Pick(s).value.1 != j && !Blocked(s, j)
    ensures s.strides[Pick(s).value.1] >= 1 && s.pass[Pick(s).value.1] <= Tp(s, j)
  {
    hide Pick;
    hide PidsOk;
    PickIsLeast(s);
    var (p, k) := Pick(s).value;
    var q :| Candidate(s, q, j);
    assert Owns(s, p, k) && Owns(s, q, j);
    RanksDiffer(p, k, q, j);
    assert !Blocks(s, k, j);
  }

  lemma RanksDiffer(p: nat, i: nat, q: nat, j: nat)
    requires i < NPROC && j < NPROC && i != j
    ensures Rank(p, i) != Rank(q, j)
  {
  }

  lemma BudgetDispatch(s: Sched, j: nat, k: nat)
    requires Inv(s) && j < NPROC && k < NPROC && Competes(s, j) && Pick(s).Some? && Pick(s).value.1 != j && !Blocked(s, j)
    ensures Budget(Dispatch(s), j, k) <= Budget(s, j, k)
    ensures k == Pick(s).value.1 ==> Budget(Dispatch(s), j, k) < Budget(s, j, k)
  {
    hide Pick;
    hide Dispatch;
    hide Blocked;
    hide PidsOk;
    hide SlotsOk;
    hide Competes;
    DispatchShape(s, j);
    PickedMoves(s, j);
    var s1 := Dispatch(s);
    assert Tp(s1, j) == Tp(s, j);
  }

  lemma {:induction false} BudgetSum(s: Sched, s1: Sched, j: nat, n: nat, k: nat)
    requires Wf(s) && Wf(s1) && j < NPROC && n <= NPROC && k < NPROC
    requires forall i: nat | i < NPROC :: Budget(s1, j, i) <= Budget(s, j, i)
    ensures BudgetBelow(s1, j, n) <= BudgetBelow(s, j, n)
    ensures k < n && Budget(s1, j, k) < Budget(s, j, k) ==> BudgetBelow(s1, j, n) < BudgetBelow(s, j, n)
  {
    hide Budget;
    if n > 0 { BudgetSum(s, s1, j, n - 1, k); }
  }

  lemma BoundDrops(s: Sched, j: nat)
    requires Inv(s) && j < NPROC && Competes(s, j) && Pick(s).Some? && Pick(s).value.1 != j && !Blocked(s, j)
    ensures WaitBound(Dispatch(s), j) < WaitBound(s, j)
  {
    hide PidsOk;
    hide SlotsOk;
    hide StridesOk;
    hide Pick;
    hide Dispatch;
    hide Budget;
    hide Competes;
    hide Blocked;
    forall k: nat | k < NPROC ensures Budget(Dispatch(s), j, k) <= Budget(s, j, k) { BudgetDispatch(s, j, k); }
    BudgetDispatch(s, j, Pick(s).value.1);
    BudgetSum(s, Dispatch(s), j, NPROC, Pick(s).value.1);
  }

  // Steps that leave the pass values and strides alone leave the bound alone.
  lemma BoundStays(s: Sched, ev: Event, s1: Sched, j: nat)
    requires Wf(s) && j < NPROC && Step(s, ev) == Some(s1) && !ev.AddPstat? && !ev.Tickets? && !ev.Schedule?
    ensures WaitBound(s1, j) == WaitBound(s, j)
  {
    hide Step;
    QuietShape(s, ev, s1);
    forall k: nat | k < NPROC ensures Budget(s1, j, k) == Budget(s, j, k) {}
    BudgetSum(s, s1, j, NPROC, 0);
    BudgetSum(s1, s, j, NPROC, 0);
  }

  lemma QuietShape(s: Sched, ev: Event, s1: Sched)
    requires Wf(s) && Step(s, ev) == Some(s1) && !ev.AddPstat? && !ev.Tickets? && !ev.Schedule?
    ensures s1.pass == s.pass && s1.strides == s.strides && s1.curr == s.curr
  {
  }

  // Without new slots no step gives a slot a new owner.
  lemma OwnersOnlyLeave(s: Sched, ev: Event, s1: Sched, p: nat, i: nat)
    requires Inv(s) && Step(s, ev) == Some(s1) && !ev.AddPstat? && Owns(s1, p, i)
    ensures Owns(s, p, i)
  {
    hide SlotsOk;
    hide StridesOk;
    hide FirstUnused;
    hide Pick;
    if ev.Schedule? {
      PickIsLeast(s);
      if Dispatch(s) != s && p == Pick(s).value.0 { PickedTracked(s); }
    }
  }

  lemma PickedTracked(s: Sched)
    requires Inv(s) && Pick(s).Some?
    ensures var (p, i) := Pick(s).value; s.state[p] == Runnable && Owns(s, p, i)
  {
    hide Pick;
    PickIsLeast(s);
  }

  // While j waits, nothing starts to block it.
  lemma UnblockedStays(s: Sched, ev: Event, s1: Sched, j: nat)
    requires Inv(s) && j < NPROC && Step(s, ev) == Some(s1) && !ev.AddPstat? && !ev.Tickets?
    requires ev.Schedule? ==> Competes(s, j) && Pick(s).Some? && Pick(s).value.1 != j
    requires !Blocked(s, j)
    ensures !Blocked(s1, j)
  {
    hide PidsOk;
    hide SlotsOk;
    hide Step;
    hide Pick;
    hide Owns;
    hide Candidate;
    if Blocked(s1, j) {
      var k :| Blocks(s1, k, j);
      BlockerWas(s, ev, s1, k, j);
    }
  }

  lemma BlockerWas(s: Sched, ev: Event, s1: Sched, k: nat, j: nat)
    requires Inv(s) && j < NPROC && Step(s, ev) == Some(s1) && !ev.AddPstat? && !ev.Tickets?
    requires ev.Schedule? ==> Competes(s, j) && Pick(s).Some? && Pick(s).value.1 != j
    requires Blocks(s1, k, j)
    ensures Blocks(s, k, j)
  {
    hide PidsOk;
    hide SlotsOk;
    hide Step;
    hide Pick;
    hide Dispatch;
    hide Owns;
    hide Candidate;
    WaitShape(s, ev, s1, j, k);
    if GoesAfter(s1, k, j) {
      var p, q :| Owns(s1, p, k) && Owns(s1, q, j) && Rank(p, k) > Rank(q, j);
      OwnersOnlyLeave(s, ev, s1, p, k);
      OwnersOnlyLeave(s, ev, s1, q, j);
    }
  }

  lemma WaitShape(s: Sched, ev: Event, s1: Sched, j: nat, k: nat)
    requires Inv(s) && j < NPROC && k < NPROC && Step(s, ev) == Some(s1) && !ev.AddPstat? && !ev.Tickets?
    requires ev.Schedule? ==> Competes(s, j) && Pick(s).Some? && Pick(s).value.1 != j
    ensures Tp(s1, j) == Tp(s, j) && s1.strides == s.strides && (s1.inuse[k] ==> s.inuse[k])
    ensures s.strides[k] < 1 ==> s1.pass[k] == s.pass[k]
  {
    hide PidsOk;
    hide SlotsOk;
    hide Pick;
    hide Candidate;
    if ev.Schedule? { DispatchShape(s, j); }
  }

  /** No starvation: unless a slot with stride 0 goes before it, a process that stays RUNNABLE is
      passed over at most WaitBound times. */
  lemma {:induction false} NoStarvation(s: Sched, run: seq<Event>, j: nat)
    requires Inv(s) && j < NPROC && Run(s, run).Some? && Waits(s, run, j) && !Blocked(s, j)
    ensures Schedules(run) <= WaitBound(s, j)
    decreases |run|
  {
    hide Step;
    hide PidsOk;
    hide SlotsOk;
    hide StridesOk;
    hide WaitBound;
    hide Blocked;
    hide Competes;
    hide Pick;
    if run != [] {
      var s1 := Step(s, run[0]).value;
      StepInv(s, run[0]);
      UnblockedStays(s, run[0], s1, j);
      if run[0].Schedule? { ScheduleIs(s, s1); BoundDrops(s, j); } else { BoundStays(s, run[0], s1, j); }
      NoStarvation(s1, run[1..], j);
    }
  }

  lemma ScheduleIs(s: Sched, s1: Sched)
    requires Wf(s) && Step(s, Schedule) == Some(s1)
    ensures s1 == Dispatch(s)
  {
  }

  // ---------------------------------------------------------------- and when it does starve

  ghost predicate Idle(s: Sched)
    requires Wf(s)
  {
    forall p | 0 <= p < NPROC :: s.state[p] != Running
  }

  /** n rounds in which the scheduler picks and the picked process yields. */
  ghost function Rounds(s: Sched, n: nat): seq<Event>
    requires Wf(s)
    decreases n
  {
    if n == 0 || Pick(s).None? then []
    else
      var p := Pick(s).value.0;
      [Schedule, Yield(p)] + Rounds(AfterRound(s), n - 1)
  }

  ghost function AfterRound(s: Sched): (s1: Sched)
    requires Wf(s)
    ensures Wf(s1)
  {
    if Pick(s).None? then s else Dispatch(s).(state := Dispatch(s).state[Pick(s).value.0 := Runnable])
  }

  lemma RoundSteps(s: Sched, n: nat)
    requires Wf(s) && Idle(s) && Pick(s).Some? && n > 0
    ensures var p, m := Pick(s).value.0, Dispatch(s);
      && Step(s, Schedule) == Some(m) && Step(m, Yield(p)) == Some(AfterRound(s))
      && Rounds(s, n)[0] == Schedule && Rounds(s, n)[1..][0] == Yield(p) && Rounds(s, n)[1..][1..] == Rounds(AfterRound(s), n - 1)
  {
    hide Pick;
    PickIsLeast(s);
  }

  /** A round only charges the slot before and moves the current slot. */
  lemma RoundShape(s: Sched)
    requires Wf(s) && Idle(s) && Pick(s).Some?
    ensures var s1 := AfterRound(s);
      && s1.state == s.state && s1.pid == s.pid && s1.slotPid == s.slotPid && s1.inuse == s.inuse && s1.forking == s.forking
      && s1.strides == s.strides && s1.curr == Pick(s).value.1
      && s1.pass == s.pass[s.curr := s.pass[s.curr] + s.strides[s.curr]]
      && Idle(s1)
  {
    hide Pick;
    PickIsLeast(s);
  }

  // The slot that blocks j wins against it.
  lemma BlockerWins(s: Sched, j: nat, k: nat)
    requires Inv(s) && j < NPROC && j != s.curr && Competes(s, j) && Blocks(s, k, j) && Competes(s, k)
    ensures Pick(s).Some? && Pick(s).value.1 != j
  {
    hide Pick;
    hide PidsOk;
    hide HasOwner;
    hide HasSlot;
    PickIsLeast(s);
    var p :| Candidate(s, p, k);
    assert Owns(s, p, k);
    if Pick(s).value.1 == j {
      var q := Pick(s).value.0;
      assert Owns(s, q, j);
      if GoesAfter(s, k, j) {
        var p1, q1 :| Owns(s, p1, k) && Owns(s, q1, j) && Rank(p1, k) > Rank(q1, j);
        SameOwner(s, p, p1, k);
        SameOwner(s, q, q1, j);
      }
    }
  }

  lemma RoundKeeps(s: Sched, j: nat, k: nat)
    requires Inv(s) && Idle(s) && j < NPROC && j != s.curr && Competes(s, j) && Blocks(s, k, j) && Competes(s, k)
    ensures Pick(s).Some? && Pick(s).value.1 != j
    ensures var s1 := AfterRound(s); Inv(s1) && Idle(s1) && j != s1.curr && Competes(s1, j) && Blocks(s1, k, j) && Competes(s1, k)
  {
    hide Pick;
    hide PidsOk;
    hide SlotsOk;
    hide AfterRound;
    hide Step;
    BlockerWins(s, j, k);
    RoundSteps(s, 1);
    RoundShape(s);
    StepInv(s, Schedule);
    StepInv(Dispatch(s), Yield(Pick(s).value.0));
    var s1 := AfterRound(s);
    forall p: nat, i: nat | Candidate(s, p, i) ensures Candidate(s1, p, i) {}
    forall p: nat, i: nat | Owns(s, p, i) ensures Owns(s1, p, i) {}
  }

  /** Starvation is real: if a RUNNABLE process's slot with stride 0 goes before j, there are
      runs with any number of dispatches in which j stays RUNNABLE and is never chosen. */
  lemma {:induction false} StarvesForever(s: Sched, j: nat, k: nat, n: nat)
    requires Inv(s) && Idle(s) && j < NPROC && j != s.curr && Competes(s, j) && Blocks(s, k, j) && Competes(s, k)
    ensures Run(s, Rounds(s, n)).Some? && Waits(s, Rounds(s, n), j) && Schedules(Rounds(s, n)) == n
    decreases n
  {
    hide Step;
    hide Dispatch;
    hide Pick;
    hide PidsOk;
    hide SlotsOk;
    hide StridesOk;
    hide Blocks;
    hide Idle;
    hide Competes;
    hide AfterRound;
    if n > 0 {
      RoundKeeps(s, j, k);
      RoundSteps(s, n);
      StarvesForever(AfterRound(s), j, k, n - 1);
      assert Waits(Dispatch(s), Rounds(s, n)[1..], j);
      assert Run(Dispatch(s), Rounds(s, n)[1..]) == Run(AfterRound(s), Rounds(AfterRound(s), n - 1));
      assert Schedules(Rounds(s, n)[1..]) == Schedules(Rounds(AfterRound(s), n - 1));
    }
  }

  // In n rounds j is never chosen.
  ghost predicate PassedOver(s: Sched, j: nat, n: nat)
    requires Wf(s)
  {
    Waits(s, Rounds(s, n), j)
  }

  /** Exactly when: while everybody with a slot stays RUNNABLE, a process that has been charged
      is passed over forever if and only if a slot with stride 0 goes before it. */
  lemma StarvesExactly(s: Sched, j: nat)
    requires Inv(s) && Idle(s) && j < NPROC && j != s.curr && Competes(s, j)
    requires forall k: nat | k < NPROC && s.inuse[k] :: Competes(s, k)
    ensures Blocked(s, j) <==> forall n: nat :: PassedOver(s, j, n)
  {
    hide PidsOk;
    hide SlotsOk;
    hide StridesOk;
    hide Idle;
    hide Competes;
    hide Pick;
    hide Waits;
    hide Rounds;
    hide Run;
    if Blocked(s, j) {
      var k :| Blocks(s, k, j);
      forall n: nat ensures PassedOver(s, j, n) { StarvesForever(s, j, k, n); }
    } else {
      var n := WaitBound(s, j) + 1;
      RoundsRun(s, j, n);
      if Waits(s, Rounds(s, n), j) { NoStarvation(s, Rounds(s, n), j); }
      assert !PassedOver(s, j, n);
    }
  }

  // While j is RUNNABLE there is always somebody to pick.
  lemma {:induction false} RoundsRun(s: Sched, j: nat, n: nat)
    requires Inv(s) && Idle(s) && j < NPROC && Competes(s, j)
    ensures Run(s, Rounds(s, n)).Some? && Schedules(Rounds(s, n)) == n
    decreases n
  {
    hide Step;
    hide Dispatch;
    hide Pick;
    hide PidsOk;
    hide SlotsOk;
    hide StridesOk;
    hide Idle;
    hide AfterRound;
    if n > 0 {
      PickIsLeast(s);
      RoundSteps(s, n);
      RoundShape(s);
      StepInv(s, Schedule);
      StepInv(Dispatch(s), Yield(Pick(s).value.0));
      var p :| Candidate(s, p, j);
      assert Candidate(AfterRound(s), p, j);
      RoundsRun(AfterRound(s), j, n - 1);
      assert Run(Dispatch(s), Rounds(s, n)[1..]) == Run(AfterRound(s), Rounds(AfterRound(s), n - 1));
      assert Schedules(Rounds(s, n)[1..]) == Schedules(Rounds(AfterRound(s), n - 1));
    }
  }

  // ---------------------------------------------------------------- how long 32-bit pass values last

  const INT_MAX: int := 0x7FFF_FFFF

  /** The pass values and tick counts grow with the number of dispatches alone. */
  ghost predicate PassBound(s: Sched, n: nat)
    requires Wf(s)
  {
    forall i | 0 <= i < NPROC :: 0 <= s.pass[i] <= MAX_STRIDE * (n + 1) && 0 <= s.ticks[i] <= n
  }

  lemma PassStep(s: Sched, ev: Event, s1: Sched, n: nat)
    requires Inv(s) && Step(s, ev) == Some(s1) && PassBound(s, n)
    ensures PassBound(s1, if ev.Schedule? then n + 1 else n)
  {
    hide PidsOk;
    hide SlotsOk;
    hide Pick;
    hide Dispatch;
    hide FreeSlot;
    hide FirstUnused;
    if ev.Schedule? { ChargeShape(s); }
  }

  lemma {:induction false} PassRun(s: Sched, run: seq<Event>, n: nat)
    requires Inv(s) && Run(s, run).Some? && PassBound(s, n)
    ensures PassBound(Run(s, run).value, n + Schedules(run))
    decreases |run|
  {
    hide Step;
    hide PidsOk;
    hide SlotsOk;
    hide StridesOk;
    hide PassBound;
    if run != [] {
      StepInv(s, run[0]);
      PassStep(s, run[0], Step(s, run[0]).value, n);
      PassRun(Step(s, run[0]).value, run[1..], if run[0].Schedule? then n + 1 else n);
    }
  }

  /** For the first 131070 dispatches of any run no pass value overflows its int. */
  lemma NoOverflow(run: seq<Event>, i: nat)
    requires Run(Boot(), run).Some? && i < NPROC && Schedules(run) <= 131070
    ensures 0 <= Run(Boot(), run).value.pass[i] <= INT_MAX && 0 <= Run(Boot(), run).value.ticks[i] <= INT_MAX
  {
    hide Run;
    BootInv();
    PassRun(Boot(), run, 0);
  }

  // The first process alone, in slot 0.
  ghost predicate Alone(s: Sched)
    requires Wf(s)
  {
    && Idle(s) && s.curr == 0 && s.strides[0] == MAX_STRIDE && Competes(s, 0)
    && forall p: nat, i: nat | Candidate(s, p, i) :: i == 0
  }

  lemma AloneRound(s: Sched)
    requires Inv(s) && Alone(s)
    ensures Pick(s).Some?
    ensures var s1 := AfterRound(s); Inv(s1) && Alone(s1) && s1.pass[0] == s.pass[0] + MAX_STRIDE
  {
    hide Pick;
    hide PidsOk;
    hide SlotsOk;
    hide AfterRound;
    hide Step;
    PickIsLeast(s);
    RoundSteps(s, 1);
    RoundShape(s);
    StepInv(s, Schedule);
    StepInv(Dispatch(s), Yield(Pick(s).value.0));
    var s1 := AfterRound(s);
    forall p: nat, i: nat ensures Candidate(s1, p, i) <==> Candidate(s, p, i) {}
  }

  lemma {:induction false} AloneRounds(s: Sched, n: nat)
    requires Inv(s) && Alone(s)
    ensures Run(s, Rounds(s, n)).Some? && Schedules(Rounds(s, n)) == n
    ensures Run(s, Rounds(s, n)).value.pass[0] == s.pass[0] + MAX_STRIDE * n
    decreases n
  {
    hide Step;
    hide Dispatch;
    hide Pick;
    hide PidsOk;
    hide SlotsOk;
    hide StridesOk;
    hide AfterRound;
    hide Competes;
    if n > 0 {
      AloneRound(s);
      RoundSteps(s, n);
      AloneRounds(AfterRound(s), n - 1);
      assert Run(Dispatch(s), Rounds(s, n)[1..]) == Run(AfterRound(s), Rounds(AfterRound(s), n - 1));
      assert Schedules(Rounds(s, n)[1..]) == Schedules(Rounds(AfterRound(s), n - 1));
    }
  }

  lemma BootAlone()
    ensures Alone(Boot()) && Boot().pass[0] == MAX_STRIDE
  {
    hide Fill;
    BootFields();
    assert Candidate(Boot(), 0, 0);
  }

  /** And no further: with the first process alone, the dispatch after those overflows its slot. */
  lemma OverflowAfter(n: nat)
    ensures var run := Rounds(Boot(), n);
      && Run(Boot(), run).Some? && Schedules(run) == n
      && (Run(Boot(), run).value.pass[0] > INT_MAX <==> n > 131070)
  {
    hide Boot;
    hide Inv;
    hide Alone;
    BootInv();
    BootAlone();
    AloneRounds(Boot(), n);
  }
}
