/** P4_XV6_Stride_Scheduling/kernel/proc.c as it changes ptable in place.  Every method does to
    the arrays what the step functions of StrideTable do to values. */
module StrideKernel {
  import opened StrideTable
  import opened Wrappers

  class Ptable {
    // ptable.proc
    const state: array<PState>
    const pid: array<int>
    var nextPid: int
    // ptable.pstat
    const inuse: array<bool>
    const tickets: array<int>
    const strides: array<int>
    const pass: array<int>
    const slotPid: array<int>
    const ticks: array<int>
    var currPstatIdx: nat
    // children between allocproc and the pstat update in fork
    ghost var forking: set<int>

    ghost predicate Valid()
      reads this
    {
      && state.Length == NPROC && pid.Length == NPROC && inuse.Length == NPROC && tickets.Length == NPROC
      && strides.Length == NPROC && pass.Length == NPROC && slotPid.Length == NPROC && ticks.Length == NPROC
      && currPstatIdx < NPROC
      && pid != tickets && pid != strides && pid != pass && pid != slotPid && pid != ticks
      && tickets != strides && tickets != pass && tickets != slotPid && tickets != ticks
      && strides != pass && strides != slotPid && strides != ticks
      && pass != slotPid && pass != ticks && slotPid != ticks
    }

    ghost function View(): (s: Sched)
      reads this, state, pid, inuse, tickets, strides, pass, slotPid, ticks
      requires Valid()
      ensures Wf(s)
    {
      Sched(state[..], pid[..], nextPid, inuse[..], tickets[..], strides[..], pass[..], slotPid[..], ticks[..],
            currPstatIdx, forking)
    }

    /** The table before any process. */
    constructor ()
      ensures Valid() && nextPid == 1 && currPstatIdx == 0 && forking == {}
      ensures state[..] == Fill(Unused) && pid[..] == Fill(0)
      ensures fresh(state) && fresh(pid) && fresh(inuse) && fresh(tickets)
      ensures fresh(strides) && fresh(pass) && fresh(slotPid) && fresh(ticks)
    {
      state := new PState[NPROC](i => Unused);
      pid := new int[NPROC](i => 0);
      inuse := new bool[NPROC];
      tickets := new int[NPROC];
      strides := new int[NPROC];
      pass := new int[NPROC];
      slotPid := new int[NPROC];
      ticks := new int[NPROC];
      nextPid, currPstatIdx, forking := 1, 0, {};
    }

    /** userinit: the first process, in slot 0. */
    method UserInit()
      requires Valid() && state[..] == Fill(Unused) && pid[..] == Fill(0) && nextPid == 1 && forking == {}
      modifies this, state, pid, inuse, tickets, strides, pass, slotPid, ticks
      ensures Valid() && View() == Boot()
    {
      var np := AllocProc();
      assert np == 0;
      currPstatIdx := 0;
      ClearPstat();
      forking := {};
      state[np] := Runnable;
      inuse[0] := true;
      tickets[0] := 1;
      strides[0] := MAX_STRIDE;
      pass[0] := MAX_STRIDE;
      slotPid[0] := pid[np];
      ticks[0] := 0;
      assert state[..] == Fill(Unused)[0 := Runnable];
      assert tickets[..] == Fill(0)[0 := 1];
    }

    method ClearPstat()
      requires Valid()
      modifies inuse, tickets, strides, pass, slotPid, ticks
      ensures Valid() && inuse[..] == Fill(false) && tickets[..] == Fill(0) && strides[..] == Fill(0)
      ensures pass[..] == Fill(0) && slotPid[..] == Fill(0) && ticks[..] == Fill(0)
      ensures state[..] == old(state[..]) && pid[..] == old(pid[..])
    {
      for i := 0 to NPROC
        invariant forall k | 0 <= k < i ::
          !inuse[k] && tickets[k] == 0 && strides[k] == 0 && pass[k] == 0 && slotPid[k] == 0 && ticks[k] == 0
        invariant state[..] == old(state[..]) && pid[..] == old(pid[..])
      {
        inuse[i] := false;
        tickets[i] := 0;
        strides[i] := 0;
        pass[i] := 0;
        slotPid[i] := 0;
        ticks[i] := 0;
      }
    }

    /** The scan and the claim of allocproc; NPROC stands for no free entry. */
    method AllocProc() returns (np: nat)
      requires Valid()
      modifies this, state, pid
      ensures Valid() && np == FirstUnused(old(View()), 0)
      ensures np < NPROC ==> View() == old(View()).(state := old(state[..])[np := Embryo], pid := old(pid[..])[np := old(nextPid)],
                                                    nextPid := old(nextPid) + 1, forking := old(forking) + {old(nextPid)})
      ensures np == NPROC ==> View() == old(View())
    {
      np := 0;
      while np < NPROC && state[np] != Unused
        invariant np <= NPROC && FirstUnused(View(), 0) == FirstUnused(View(), np)
      {
        np := np + 1;
      }
      if np < NPROC {
        state[np] := Embryo;
        pid[np] := nextPid;
        forking := forking + {nextPid};
        nextPid := nextPid + 1;
      }
    }

    /** The end of fork: the child's slot. */
    method AddPstat(np: nat)
      requires Valid() && np < NPROC
      modifies this`forking, inuse, tickets, strides, pass, slotPid, ticks
      ensures Valid() && View() == AddSlot(old(View()), old(pid[np])).(forking := old(forking) - {old(pid[np])})
    {
      ghost var s := View();
      forking := forking - {pid[np]};
      var i := 1;
      while i < NPROC
        invariant 1 <= i <= NPROC && Valid() && FreeSlot(s, 1) == FreeSlot(s, i)
        invariant View() == s.(forking := forking) && forking == s.forking - {pid[np]}
      {
        var nidx := (currPstatIdx + i) % NPROC;
        assert nidx == Wrap(currPstatIdx, i);
        if !inuse[nidx] {
          inuse[nidx] := true;
          tickets[nidx] := tickets[currPstatIdx];
          strides[nidx] := strides[currPstatIdx];
          pass[nidx] := strides[nidx];
          slotPid[nidx] := pid[np];
          ticks[nidx] := 0;
          assert FreeSlot(s, i) == Some(nidx);
          return;
        }
        i := i + 1;
      }
    }

    /** The pstat and state part of exit. */
    method Exit(p: nat)
      requires Valid() && Is(View(), p, Running)
      modifies inuse, state
      ensures Valid() && Some(View()) == Step(old(View()), Event.Exit(p))
    {
      inuse[currPstatIdx] := false;
      state[p] := Zombie;
    }

    /** The search of scheduler: the chosen entry and slot, or -1. */
    method FindMin() returns (minp: int, nxt: int)
      requires Valid()
      ensures Pick(View()).None? ==> minp == -1
      ensures Pick(View()).Some? ==> (minp, nxt) == Pick(View()).value
    {
      hide Search;
      ghost var s := View();
      var min := -1;
      nxt, minp := -1, -1;
      SearchNone(s);
      for p := 0 to NPROC
        invariant Found(s, Search(s, p * NPROC), minp, nxt, min)
      {
        if state[p] == Runnable {
          for i := 0 to NPROC
            invariant Found(s, Search(s, p * NPROC + i), minp, nxt, min)
          {
            RowStep(s, p, i);
            ghost var best := Search(s, p * NPROC + i);
            if slotPid[i] == pid[p] {
              if nxt == -1 {
                nxt := i;
                min := pass[i];
                minp := p;
              } else if pass[i] <= min {
                nxt := i;
                min := pass[i];
                minp := p;
              }
            }
            assert Found(s, Better(s, best, p, i), minp, nxt, min);
          }
        } else {
          SkipRow(s, p, NPROC);
        }
      }
    }

    /** One iteration of scheduler, up to the switch to the chosen process. */
    method Schedule()
      requires Valid()
      modifies this`currPstatIdx, state, pass, ticks
      ensures Valid() && View() == Dispatch(old(View()))
    {
      hide Pick;
      var minp, nxt := FindMin();
      if minp != -1 {
        pass[currPstatIdx] := pass[currPstatIdx] + strides[currPstatIdx];
        ticks[currPstatIdx] := ticks[currPstatIdx] + 1;
        currPstatIdx := nxt;
        state[minp] := Running;
      }
    }

    /** sys_settickets and settickets. */
    method SetTickets(number: int) returns (r: int)
      requires Valid()
      modifies tickets, strides
      ensures Valid() && r == (if number < 1 then -1 else 0)
      ensures View() == if number < 1 then old(View()) else StrideTable.SetTickets(old(View()), number)
    {
      if number < 1 { return -1; }
      tickets[currPstatIdx] := number;
      strides[currPstatIdx] := MAX_STRIDE / number;
      return 0;
    }

    method Yield(p: nat)
      requires Valid() && Is(View(), p, Running)
      modifies state
      ensures Valid() && Some(View()) == Step(old(View()), Event.Yield(p))
    {
      state[p] := Runnable;
    }
  }

  // The search's variables agree with the best pair so far.
  ghost predicate Found(s: Sched, best: Option<(nat, nat)>, minp: int, nxt: int, min: int)
    requires Wf(s)
  {
    match best
    case None => minp == -1 && nxt == -1
    case Some((p, i)) => i < NPROC && minp == p && nxt == i && min == s.pass[i]
  }

  lemma SearchNone(s: Sched)
    requires Wf(s)
    ensures Search(s, 0) == None
  {
  }

  lemma RowStep(s: Sched, p: nat, i: nat)
    requires Wf(s) && p < NPROC && i < NPROC
    ensures Search(s, p * NPROC + i + 1) == Better(s, Search(s, p * NPROC + i), p, i)
  {
  }

  lemma {:induction false} SkipRow(s: Sched, p: nat, n: nat)
    requires Wf(s) && p < NPROC && n <= NPROC && s.state[p] != Runnable
    ensures Search(s, p * NPROC + n) == Search(s, p * NPROC)
  {
    if n > 0 {
      SkipRow(s, p, n - 1);
      RowStep(s, p, n - 1);
    }
  }
}
