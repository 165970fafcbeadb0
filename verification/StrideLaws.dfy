/** What each step of P4_XV6_Stride_Scheduling/kernel/proc.c does to the tables, entry by entry, and
    the shares in terms of the tickets asked for. */
module StrideLaws {
  import opened StrideTable
  import opened StrideFair
  import opened Wrappers

  // ---------------------------------------------------------------- settickets

  /** settickets is for the running process, and a number of at least 1.  Its own slot gets the
      number and the stride 16384 divided by it; all else stays. */
  lemma TicketsLaw(s: Sched, p: nat, number: int, i: nat)
    requires Inv(s) && Owns(s, p, i)
    ensures Step(s, Tickets(p, number)).Some? <==> s.state[p] == Running && number >= 1
    ensures Step(s, Tickets(p, number)).Some? ==>
      var s1 := Step(s, Tickets(p, number)).value;
      && s1.tickets[i] == number && s1.strides[i] == 16384 / number
      && (forall j | 0 <= j < 64 && j != i :: s1.tickets[j] == s.tickets[j] && s1.strides[j] == s.strides[j])
      && s1 == s.(tickets := s1.tickets, strides := s1.strides)
  {
    hide PidsOk;
    hide StridesOk;
    hide NoStaleMatch;
    if s.state[p] == Running { RunningOwns(s, p, i); }
  }

  lemma RunningOwns(s: Sched, p: nat, i: nat)
    requires Inv(s) && Owns(s, p, i) && s.state[p] == Running
    ensures i == s.curr
  {
    hide PidsOk;
    hide StridesOk;
    hide NoStaleMatch;
    assert Owns(s, p, s.curr);
  }

  // p neither exits nor calls settickets.
  ghost predicate LeavesAlone(run: seq<Event>, p: nat) {
    forall e | e in run :: !(e.Exit? && e.p == p) && !(e.Tickets? && e.p == p)
  }

  // The slots' owners and tickets stay the same as far as p and i go.
  ghost predicate Kept(s: Sched, s1: Sched, p: nat, i: nat)
    requires Wf(s) && Wf(s1)
  {
    Owns(s1, p, i) && s1.tickets[i] == s.tickets[i] && s1.strides[i] == s.strides[i]
  }

  lemma OthersKeep(s: Sched, ev: Event, s1: Sched, p: nat, i: nat)
    requires Inv(s) && Owns(s, p, i) && Step(s, ev) == Some(s1) && !(ev.Exit? && ev.p == p) && !(ev.Tickets? && ev.p == p)
    ensures Kept(s, s1, p, i)
  {
    hide PidsOk;
    hide SlotsOk;
    hide StridesOk;
    hide FirstUnused;
    hide Dispatch;
    hide AddSlot;
    match ev
    case Schedule => ScheduleKeeps(s, p, i);
    case AddPstat(q, np) => AddShape(s, q, np, s1); AddKeeps(s, q, np, s1, p, i);
    case Tickets(q, _) => OneRunning(s, q, p); OneOwner(s, p, q, i);
    case Exit(q) => OneRunning(s, q, p); OneOwner(s, p, q, i);
    case AllocProc(_) => PidBelow(s, p);
    case _ =>
  }

  lemma PidBelow(s: Sched, p: nat)
    requires Inv(s) && p < NPROC
    ensures s.pid[p] < s.nextPid
  {
  }

  lemma OneOwner(s: Sched, p: nat, q: nat, i: nat)
    requires Inv(s) && Owns(s, p, i) && p != q
    ensures !Owns(s, q, i)
  {
    hide SlotsOk;
    hide StridesOk;
  }

  lemma ScheduleKeeps(s: Sched, p: nat, i: nat)
    requires Inv(s) && Owns(s, p, i)
    ensures Kept(s, Dispatch(s), p, i)
  {
    hide PidsOk;
    hide SlotsOk;
    hide StridesOk;
    hide Pick;
  }

  lemma AddKeeps(s: Sched, q: nat, np: nat, s1: Sched, p: nat, i: nat)
    requires Inv(s) && Owns(s, p, i) && Step(s, AddPstat(q, np)) == Some(s1)
    ensures Kept(s, s1, p, i)
  {
    hide PidsOk;
    hide SlotsOk;
    hide StridesOk;
    hide FreeSlot;
  }

  /** A process keeps the tickets it asked for: whatever the others do, until it exits or asks
      again. */
  lemma {:induction false} TicketsLast(s: Sched, run: seq<Event>, p: nat, i: nat, number: int)
    requires Inv(s) && Owns(s, p, i) && Run(s, [Tickets(p, number)] + run).Some? && LeavesAlone(run, p)
    ensures var s1 := Run(s, [Tickets(p, number)] + run).value;
      Owns(s1, p, i) && s1.tickets[i] == number && s1.strides[i] == 16384 / number
  {
    hide Step;
    hide PidsOk;
    hide SlotsOk;
    hide StridesOk;
    hide Owns;
    assert ([Tickets(p, number)] + run)[1..] == run;
    var m := Step(s, Tickets(p, number)).value;
    TicketsLaw(s, p, number, i);
    StillOwns(s, m, p, i);
    StepInv(s, Tickets(p, number));
    SlotKept(m, run, p, i);
  }

  lemma StillOwns(s: Sched, s1: Sched, p: nat, i: nat)
    requires Wf(s) && Wf(s1) && Owns(s, p, i) && s1 == s.(tickets := s1.tickets, strides := s1.strides)
    ensures Owns(s1, p, i)
  {
  }

  lemma {:induction false} SlotKept(s: Sched, run: seq<Event>, p: nat, i: nat)
    requires Inv(s) && Owns(s, p, i) && Run(s, run).Some? && LeavesAlone(run, p)
    ensures var s1 := Run(s, run).value; Owns(s1, p, i) && s1.tickets[i] == s.tickets[i] && s1.strides[i] == s.strides[i]
    decreases |run|
  {
    hide Step;
    hide PidsOk;
    hide SlotsOk;
    hide StridesOk;
    hide Owns;
    if run != [] {
      StepInv(s, run[0]);
      OthersKeep(s, run[0], Step(s, run[0]).value, p, i);
      SlotKept(Step(s, run[0]).value, run[1..], p, i);
    }
  }

  // ---------------------------------------------------------------- fork's slot

  // Slot n is free and all slots from the one after i up to it are in use, going round.
  ghost predicate NextFree(s: Sched, i: nat, n: nat)
    requires Wf(s)
  {
    && i < 64 && n < 64 && n != i && !s.inuse[n]
    && forall j | 0 <= j < 64 && (if i < n then i < j < n else j > i || j < n) :: s.inuse[j]
  }

  lemma {:induction false} FreeSlotIsNext(s: Sched, k: nat)
    requires Wf(s) && 1 <= k <= NPROC && forall j | 1 <= j < k :: s.inuse[Wrap(s.curr, j)]
    ensures FreeSlot(s, k).Some? ==> NextFree(s, s.curr, FreeSlot(s, k).value)
    decreases NPROC - k
  {
    hide Wrap;
    if k < NPROC {
      WrapIs(s.curr, k);
      if s.inuse[Wrap(s.curr, k)] {
        FreeSlotIsNext(s, k + 1);
      } else {
        var n := Wrap(s.curr, k);
        forall j | 0 <= j < 64 && (if s.curr < n then s.curr < j < n else j > s.curr || j < n) ensures s.inuse[j] {
          WrapIs(s.curr, if j > s.curr then j - s.curr else j - s.curr + 64);
        }
      }
    }
  }

  // Slot n of s1 is the child's, made from slot i; no other slot changes.
  ghost predicate GotSlot(s: Sched, s1: Sched, i: nat, n: nat, pid: int)
    requires Wf(s) && Wf(s1)
  {
    && NextFree(s, i, n) && s1.inuse[n] && s1.tickets[n] == s.tickets[i] && s1.strides[n] == s.strides[i]
    && s1.pass[n] == s.strides[i] && s1.slotPid[n] == pid && s1.ticks[n] == 0
    && forall j | 0 <= j < 64 && j != n ::
         && s1.inuse[j] == s.inuse[j] && s1.tickets[j] == s.tickets[j] && s1.strides[j] == s.strides[j]
         && s1.pass[j] == s.pass[j] && s1.slotPid[j] == s.slotPid[j] && s1.ticks[j] == s.ticks[j]
  }

  /** fork gives the child the next free slot, going round from the parent's: in use, with the
      parent's tickets and stride, one stride of pass, the child's pid and no ticks.  No other slot
      changes. */
  lemma ChildSlot(s: Sched, p: nat, np: nat, s1: Sched, i: nat) returns (n: nat)
    requires Inv(s) && Owns(s, p, i) && Step(s, AddPstat(p, np)) == Some(s1)
    ensures GotSlot(s, s1, i, n, s.pid[np])
    ensures s1.state == s.state && s1.pid == s.pid && s1.nextPid == s.nextPid && s1.curr == s.curr && s1.forking == s.forking - {s.pid[np]}
  {
    hide PidsOk;
    hide SlotsOk;
    hide StridesOk;
    hide FreeSlot;
    hide NextFree;
    RunningOwns(s, p, i);
    FreeSlotFound(s, p, np);
    FreeSlotIsNext(s, 1);
    n := FreeSlot(s, 1).value;
  }

  // ---------------------------------------------------------------- states

  // Only the state of p changes.
  ghost predicate Becomes(s: Sched, r: Option<Sched>, p: nat, from: PState, to: PState)
    requires Wf(s)
  {
    && (r.Some? <==> p < 64 && s.state[p] == from)
    && (r.Some? ==> r == Some(s.(state := s.state[p := to])))
  }

  lemma StateLaw(s: Sched, p: nat)
    requires Wf(s)
    ensures Becomes(s, Step(s, Yield(p)), p, Running, Runnable)
    ensures Becomes(s, Step(s, Sleep(p)), p, Running, Sleeping)
    ensures Becomes(s, Step(s, Wakeup(p)), p, Sleeping, Runnable)
    ensures Becomes(s, Step(s, MakeRunnable(p)), p, Embryo, Runnable)
  {
  }

  /** allocproc takes the first unused entry for the next pid; a failed fork gives it back. */
  lemma AllocLaw(s: Sched, p: nat)
    requires Wf(s)
    ensures Step(s, AllocProc(p)).Some? <==> p < 64 && s.state[p] == Running && exists q :: 0 <= q < 64 && s.state[q] == Unused
    ensures Step(s, AllocProc(p)).Some? ==>
      var s1 := Step(s, AllocProc(p)).value;
      exists np ::
        && 0 <= np < 64 && s.state[np] == Unused && (forall q | 0 <= q < np :: s.state[q] != Unused)
        && s1 == s.(state := s.state[np := Embryo], pid := s.pid[np := s.nextPid], nextPid := s.nextPid + 1, forking := s.forking + {s.nextPid})
    ensures Step(s, ForkFails(p)).Some? <==> p < 64 && s.state[p] == Embryo
    ensures Step(s, ForkFails(p)).Some? ==>
      Step(s, ForkFails(p)).value == s.(state := s.state[p := Unused], forking := s.forking - {s.pid[p]})
  {
    hide FirstUnused;
    var np := FirstUnused(s, 0);
    assert np < NPROC ==> s.state[np] == Unused;
  }

  /** exit leaves a zombie and gives up its own slot; wait frees the entry. */
  lemma ExitLaw(s: Sched, p: nat, i: nat)
    requires Inv(s) && Owns(s, p, i) && s.state[p] == Running
    ensures Step(s, Exit(p)) == Some(s.(state := s.state[p := Zombie], inuse := s.inuse[i := false]))
  {
    hide PidsOk;
    hide StridesOk;
    hide NoStaleMatch;
    RunningOwns(s, p, i);
  }

  lemma ReapLaw(s: Sched, p: nat)
    requires Wf(s)
    ensures Step(s, Reap(p)).Some? <==> p < 64 && s.state[p] == Zombie
    ensures Step(s, Reap(p)).Some? ==> Step(s, Reap(p)).value == s.(state := s.state[p := Unused], pid := s.pid[p := 0])
  {
  }

  /** One iteration of scheduler: it picks a RUNNABLE process whose slot has the least stored pass;
      the slot that was current is charged its stride and a tick; the chosen process runs in its slot. */
  lemma ScheduleLaw(s: Sched)
    requires Inv(s) && (forall p | 0 <= p < 64 :: s.state[p] != Running) && (exists p: nat, i: nat :: Owns(s, p, i) && s.state[p] == Runnable)
    ensures Step(s, Schedule).Some?
    ensures var s1 := Step(s, Schedule).value;
      exists p: nat, i: nat ::
        && Owns(s, p, i) && s.state[p] == Runnable
        && (forall q: nat, j: nat | Owns(s, q, j) && s.state[q] == Runnable :: s.pass[i] <= s.pass[j])
        && s1.state == s.state[p := Running] && s1.curr == i
        && s1.pass == s.pass[s.curr := s.pass[s.curr] + s.strides[s.curr]] && s1.ticks == s.ticks[s.curr := s.ticks[s.curr] + 1]
        && s1 == s.(state := s1.state, curr := s1.curr, pass := s1.pass, ticks := s1.ticks)
  {
    hide PidsOk;
    hide SlotsOk;
    hide StridesOk;
    hide Pick;
    PickIsLeast(s);
    var q: nat, j: nat :| Owns(s, q, j) && s.state[q] == Runnable;
    assert Candidate(s, q, j);
    PickedTracked(s);
    forall q: nat, j: nat | Owns(s, q, j) && s.state[q] == Runnable ensures s.pass[Pick(s).value.1] <= s.pass[j] { assert Candidate(s, q, j); }
  }

  // ---------------------------------------------------------------- shares by tickets

  lemma StrideOf(s: Sched, i: nat)
    requires Inv(s) && i < NPROC && s.inuse[i]
    ensures s.tickets[i] >= 1 && s.strides[i] == 16384 / s.tickets[i]
  {
    hide PidsOk;
    hide SlotsOk;
  }

  /** Proportional share by tickets: over a run of any length, the ticks of two competitors, each
      weighed by 16384 divided by its tickets, differ by at most two strides and what their pass
      values differed by at the start. */
  lemma ShareByTickets(s: Sched, run: seq<Event>, i: nat, j: nat)
    requires Inv(s) && i < NPROC && j < NPROC && i != j && s.inuse[i] && s.inuse[j]
    requires Contest(s, run, i, j) && Contest(s, run, j, i) && Run(s, run).Some?
    ensures s.tickets[i] >= 1 && s.tickets[j] >= 1
    ensures var s1, a, b := Run(s, run).value, 16384 / s.tickets[i], 16384 / s.tickets[j];
      var d := a * (s1.ticks[i] - s.ticks[i]) - b * (s1.ticks[j] - s.ticks[j]);
      -Max(b, 2 * b + (s.pass[i] - s.pass[j])) <= d <= Max(a, 2 * a + (s.pass[j] - s.pass[i]))
  {
    hide Run;
    hide Contest;
    hide PidsOk;
    hide SlotsOk;
    hide StridesOk;
    StrideOf(s, i);
    StrideOf(s, j);
    StrideAtLeastNone(s.tickets[i]);
    StrideAtLeastNone(s.tickets[j]);
    ProportionalShare(s, run, i, j);
  }

  lemma StrideAtLeastNone(t: int)
    requires t >= 1
    ensures 16384 / t >= 0
  {
  }

  /** When both numbers of tickets divide 16384, the ticks are in proportion to the tickets, up to a
      constant. */
  lemma SharesExactly(s: Sched, run: seq<Event>, i: nat, j: nat)
    requires Inv(s) && i < NPROC && j < NPROC && i != j && s.inuse[i] && s.inuse[j]
    requires Contest(s, run, i, j) && Contest(s, run, j, i) && Run(s, run).Some?
    requires s.tickets[i] >= 1 && s.tickets[j] >= 1 && 16384 % s.tickets[i] == 0 && 16384 % s.tickets[j] == 0
    ensures var s1, ti, tj := Run(s, run).value, s.tickets[i], s.tickets[j];
      16384 * (tj * (s1.ticks[i] - s.ticks[i]) - ti * (s1.ticks[j] - s.ticks[j]))
      <= ti * tj * Max(16384 / ti, 2 * (16384 / ti) + (s.pass[j] - s.pass[i]))
  {
    hide Run;
    hide Contest;
    hide PidsOk;
    hide SlotsOk;
    hide StridesOk;
    ShareByTickets(s, run, i, j);
    var s1, ti, tj := Run(s, run).value, s.tickets[i], s.tickets[j];
    CrossMultiply(ti, tj, 16384 / ti, 16384 / tj, s1.ticks[i] - s.ticks[i], s1.ticks[j] - s.ticks[j],
                  Max(16384 / ti, 2 * (16384 / ti) + (s.pass[j] - s.pass[i])));
  }

  lemma CrossMultiply(ti: int, tj: int, a: int, b: int, gi: int, gj: int, bound: int)
    requires ti >= 1 && tj >= 1 && a * ti == 16384 && b * tj == 16384 && a * gi - b * gj <= bound
    ensures 16384 * (tj * gi - ti * gj) <= ti * tj * bound
  {
    assert ti * tj >= 1;
    assert ti * tj * (a * gi - b * gj) == a * ti * (tj * gi) - b * tj * (ti * gj);
    MulLe(ti * tj, a * gi - b * gj, bound);
  }

  lemma MulLe(n: int, x: int, y: int)
    requires n >= 0 && x <= y
    ensures n * x <= n * y
  {
  }
}
