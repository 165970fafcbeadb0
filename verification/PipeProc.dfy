/** sleep and wakeup1 of P5_XV6_CoW_Fork/kernel/proc.c on the process table, for the two channels
    of a pipe, and pipeclose; each keeps the table in step with the threads of PipeSystem. */
module PipeProc {
  import opened PipeBuffer
  import opened PipeSystem

  const NPROC: nat := 64

  datatype PState = Unused | Embryo | Sleeping | Runnable | Running | Zombie

  // The addresses &p->nread and &p->nwrite; 0 is no channel.
  const NREAD: int := 1
  const NWRITE: int := 2

  function Channel(reader: bool): int { if reader then NREAD else NWRITE }

  class ProcTable {
    const state: array<PState>
    const chan: array<int>

    constructor ()
      ensures Valid() && Shows(map[]) && fresh(state) && fresh(chan)
    {
      state := new PState[NPROC](i => Unused);
      chan := new int[NPROC](i => 0);
    }

    ghost predicate Valid() { state.Length == NPROC && chan.Length == NPROC }

    /** Entry t is SLEEPING exactly when thread t sleeps, and then on its own channel. */
    ghost predicate Shows(threads: map<nat, Thread>)
      reads state, chan
      requires Valid()
    {
      && (forall t | t in threads :: t < NPROC && state[t] != Unused)
      && (forall t | t in threads :: state[t] == Sleeping <==> threads[t].pc.Asleep?)
      && (forall t | t in threads && threads[t].pc.Asleep? :: chan[t] == Channel(threads[t].role.Reader?))
      && (forall t: nat | t < NPROC && t !in threads :: state[t] != Sleeping)
    }

    method Wakeup1(ch: int)
      requires Valid()
      modifies state
      ensures forall p | 0 <= p < NPROC ::
        state[p] == if old(state[p]) == Sleeping && chan[p] == ch then Runnable else old(state[p])
    {
      for p := 0 to NPROC
        invariant forall q | 0 <= q < p :: state[q] == if old(state[q]) == Sleeping && chan[q] == ch then Runnable else old(state[q])
        invariant forall q | p <= q < NPROC :: state[q] == old(state[q])
      {
        if state[p] == Sleeping && chan[p] == ch { state[p] := Runnable; }
      }
    }

    /** wakeup on a pipe's channel is the step system's wakeup. */
    method WakeupPipe(reader: bool, ghost threads: map<nat, Thread>)
      requires Valid() && Shows(threads)
      modifies state
      ensures Shows(Woken(threads, reader))
    {
      Wakeup1(Channel(reader));
    }

    /** The part of sleep under the table's lock. */
    method Sleep(p: nat, reader: bool, ghost threads: map<nat, Thread>)
      requires Valid() && Shows(threads) && p in threads && threads[p].pc.Dozing? && reader == threads[p].role.Reader?
      modifies state, chan
      ensures Shows(threads[p := threads[p].(pc := Asleep)])
    {
      chan[p] := Channel(reader);
      state[p] := Sleeping;
    }
  }
}
