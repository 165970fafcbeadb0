/** The stride scheduler of P4_XV6_Stride_Scheduling/kernel/proc.c on one CPU: the process table,
    the pstat slots, and every step that touches them, as functions on values. */
module StrideTable {
  import opened Wrappers

  const NPROC: nat := 64
  const MAX_STRIDE: int := 16384

  datatype PState = Unused | Embryo | Sleeping | Runnable | Running | Zombie

  /** state, pid: ptable.proc.  inuse .. ticks: ptable.pstat.  forking: the pids of children
      whose fork has not reached the pstat update yet. */
  datatype Sched = Sched(
    state: seq<PState>, pid: seq<int>, nextPid: int,
    inuse: seq<bool>, tickets: seq<int>, strides: seq<int>, pass: seq<int>, slotPid: seq<int>, ticks: seq<int>,
    curr: nat, forking: set<int>)

  predicate Wf(s: Sched) {
    && |s.state| == NPROC && |s.pid| == NPROC
    && |s.inuse| == NPROC && |s.tickets| == NPROC && |s.strides| == NPROC
    && |s.pass| == NPROC && |s.slotPid| == NPROC && |s.ticks| == NPROC && s.curr < NPROC
  }

  // ---------------------------------------------------------------- the scheduler's search

  predicate Candidate(s: Sched, p: nat, i: nat)
    requires Wf(s)
  {
    p < NPROC && i < NPROC && s.state[p] == Runnable && s.slotPid[i] == s.pid[p]
  }

  // One pass of the inner loop body.
  function Better(s: Sched, best: Option<(nat, nat)>, p: nat, i: nat): Option<(nat, nat)>
    requires Wf(s) && (best.Some? ==> best.value.1 < NPROC)
  {
    if Candidate(s, p, i) && (best.None? || s.pass[i] <= s.pass[best.value.1]) then Some((p, i)) else best
  }

  /** The best (process, slot) pair after n passes of the nested loops. */
  function Search(s: Sched, n: nat): (best: Option<(nat, nat)>)
    requires Wf(s)
    ensures best.Some? ==> best.value.0 < NPROC && best.value.1 < NPROC
  {
    if n == 0 then None else Better(s, Search(s, n - 1), (n - 1) / NPROC, (n - 1) % NPROC)
  }

  function Pick(s: Sched): (best: Option<(nat, nat)>)
    requires Wf(s)
    ensures best.Some? ==> best.value.0 < NPROC && best.value.1 < NPROC
  {
    Search(s, NPROC * NPROC)
  }

  function Rank(p: nat, i: nat): nat { p * NPROC + i }

  // (p, i) has the least pass of the candidates below rank n, and among equals the last.
  ghost predicate Best(s: Sched, n: nat, p: nat, i: nat)
    requires Wf(s)
  {
    && Candidate(s, p, i) && Rank(p, i) < n
    && forall q: nat, j: nat | Candidate(s, q, j) && Rank(q, j) < n ::
         s.pass[i] <= s.pass[j] && (Rank(q, j) > Rank(p, i) ==> s.pass[i] < s.pass[j])
  }

  lemma {:induction false} SearchIsBest(s: Sched, n: nat)
    requires Wf(s)
    ensures match Search(s, n)
      case None => forall q: nat, j: nat | Candidate(s, q, j) :: Rank(q, j) >= n
      case Some((p, i)) => Best(s, n, p, i)
  {
    if n > 0 {
      SearchIsBest(s, n - 1);
      var p, i := (n - 1) / NPROC, (n - 1) % NPROC;
      assert Rank(p, i) == n - 1;
      forall q: nat, j: nat | Candidate(s, q, j) && Rank(q, j) == n - 1 ensures q == p && j == i {}
    }
  }

  /** The scheduler picks a RUNNABLE process of least stored pass, the last of equals; it picks
      none exactly when no RUNNABLE process has a slot. */
  lemma PickIsLeast(s: Sched)
    requires Wf(s)
    ensures Pick(s).None? <==> forall p: nat, i: nat :: !Candidate(s, p, i)
    ensures Pick(s).Some? ==>
      var (p, i) := Pick(s).value;
      && Candidate(s, p, i)
      && forall q: nat, j: nat | Candidate(s, q, j) ::
           s.pass[i] <= s.pass[j] && (Rank(q, j) > Rank(p, i) ==> s.pass[i] < s.pass[j])
  {
    SearchIsBest(s, NPROC * NPROC);
    forall p: nat, i: nat | Candidate(s, p, i) ensures Rank(p, i) < NPROC * NPROC {}
  }

  /** The previous process is charged only now, after the choice. */
  function Dispatch(s: Sched): (s1: Sched)
    requires Wf(s)
    ensures Wf(s1)
  {
    match Pick(s)
    case None => s
    case Some((p, i)) =>
      s.(pass := s.pass[s.curr := s.pass[s.curr] + s.strides[s.curr]],
         ticks := s.ticks[s.curr := s.ticks[s.curr] + 1],
         curr := i,
         state := s.state[p := Running])
  }

  // ---------------------------------------------------------------- the other steps

  // allocproc's scan.
  function FirstUnused(s: Sched, p: nat): (q: nat)
    requires Wf(s) && p <= NPROC
    ensures p <= q <= NPROC && (q < NPROC ==> s.state[q] == Unused)
    ensures forall r | p <= r < q :: s.state[r] != Unused
    decreases NPROC - p
  {
    if p == NPROC || s.state[p] == Unused then p else FirstUnused(s, p + 1)
  }

  function Wrap(c: nat, k: nat): nat { (c + k) % NPROC }

  /** fork's scan for a free slot, from offset k past the current one. */
  function FreeSlot(s: Sched, k: nat): (r: Option<nat>)
    requires Wf(s) && 1 <= k <= NPROC
    ensures r.Some? ==> r.value < NPROC && r.value != s.curr && !s.inuse[r.value]
    ensures r.None? ==> forall j | k <= j < NPROC :: s.inuse[Wrap(s.curr, j)]
    decreases NPROC - k
  {
    if k == NPROC then None
    else if !s.inuse[Wrap(s.curr, k)] then Some(Wrap(s.curr, k))
    else FreeSlot(s, k + 1)
  }

  function AddSlot(s: Sched, pid: int): (s1: Sched)
    requires Wf(s)
    ensures Wf(s1)
  {
    match FreeSlot(s, 1)
    case None => s
    case Some(n) =>
      s.(inuse := s.inuse[n := true], tickets := s.tickets[n := s.tickets[s.curr]],
         strides := s.strides[n := s.strides[s.curr]], pass := s.pass[n := s.strides[s.curr]],
         slotPid := s.slotPid[n := pid], ticks := s.ticks[n := 0])
  }

  function SetTickets(s: Sched, number: int): (s1: Sched)
    requires Wf(s) && number >= 1
    ensures Wf(s1)
  {
    s.(tickets := s.tickets[s.curr := number], strides := s.strides[s.curr := MAX_STRIDE / number])
  }

  datatype Event =
    | AllocProc(p: nat)                    // running p starts a fork
    | ForkFails(np: nat)                   // no kernel stack or no memory for the child
    | MakeRunnable(np: nat)                // fork sets the child RUNNABLE
    | AddPstat(p: nat, np: nat)            // running p gives child np its slot
    | Yield(p: nat)
    | Sleep(p: nat)
    | Wakeup(p: nat)
    | Exit(p: nat)
    | Reap(p: nat)                         // wait frees a zombie
    | Tickets(p: nat, number: int)         // running p calls settickets
    | Schedule                             // one iteration of scheduler

  predicate Is(s: Sched, p: nat, st: PState)
    requires Wf(s)
  {
    p < NPROC && s.state[p] == st
  }

  /** One step; None when the event cannot happen in s. */
  function Step(s: Sched, ev: Event): (r: Option<Sched>)
    requires Wf(s)
    ensures r.Some? ==> Wf(r.value)
  {
    match ev
    case AllocProc(p) =>
      var np := FirstUnused(s, 0);
      if !Is(s, p, Running) || np == NPROC then None
      else Some(s.(state := s.state[np := Embryo], pid := s.pid[np := s.nextPid], nextPid := s.nextPid + 1,
                   forking := s.forking + {s.nextPid}))
    case ForkFails(np) =>
      if !Is(s, np, Embryo) then None
      else Some(s.(state := s.state[np := Unused], forking := s.forking - {s.pid[np]}))
    case MakeRunnable(np) => if !Is(s, np, Embryo) then None else Some(s.(state := s.state[np := Runnable]))
    case AddPstat(p, np) =>
      if !Is(s, p, Running) || !Is(s, np, Runnable) || s.pid[np] !in s.forking then None
      else Some(AddSlot(s, s.pid[np]).(forking := s.forking - {s.pid[np]}))
    case Yield(p) => if !Is(s, p, Running) then None else Some(s.(state := s.state[p := Runnable]))
    case Sleep(p) => if !Is(s, p, Running) then None else Some(s.(state := s.state[p := Sleeping]))
    case Wakeup(p) => if !Is(s, p, Sleeping) then None else Some(s.(state := s.state[p := Runnable]))
    case Exit(p) =>
      if !Is(s, p, Running) then None
      else Some(s.(inuse := s.inuse[s.curr := false], state := s.state[p := Zombie]))
    case Reap(p) => if !Is(s, p, Zombie) then None else Some(s.(state := s.state[p := Unused], pid := s.pid[p := 0]))
    case Tickets(p, number) => if !Is(s, p, Running) || number < 1 then None else Some(SetTickets(s, number))
    case Schedule => if exists p :: 0 <= p < NPROC && s.state[p] == Running then None else Some(Dispatch(s))
  }

  function Fill<T>(x: T): seq<T> { seq(NPROC, i => x) }

  /** After userinit: the first process, in slot 0. */
  function Boot(): (s: Sched)
    ensures Wf(s)
  {
    Sched(Fill(Unused)[0 := Runnable], Fill(0)[0 := 1], 2,
          Fill(false)[0 := true], Fill(0)[0 := 1], Fill(0)[0 := MAX_STRIDE], Fill(0)[0 := MAX_STRIDE], Fill(0)[0 := 1], Fill(0),
          0, {})
  }

  // ---------------------------------------------------------------- the slot table

  predicate Live(st: PState) { st == Runnable || st == Running || st == Sleeping }

  // A live process whose fork is over.
  predicate Tracked(s: Sched, p: nat)
    requires Wf(s)
  {
    p < NPROC && Live(s.state[p]) && s.pid[p] !in s.forking
  }

  predicate Owns(s: Sched, p: nat, i: nat)
    requires Wf(s)
  {
    Tracked(s, p) && i < NPROC && s.inuse[i] && s.slotPid[i] == s.pid[p]
  }

  ghost predicate PidsOk(s: Sched)
    requires Wf(s)
  {
    && (forall p | 0 <= p < NPROC :: s.pid[p] < s.nextPid)
    && s.nextPid >= 1
    && (forall p | 0 <= p < NPROC && s.state[p] != Unused :: 1 <= s.pid[p] < s.nextPid)
    && (forall p, q | 0 <= p < q < NPROC && s.state[p] != Unused && s.state[q] != Unused :: s.pid[p] != s.pid[q])
    && (forall x | x in s.forking :: 1 <= x < s.nextPid)
    && (forall p | 0 <= p < NPROC && s.state[p] == Embryo :: s.pid[p] in s.forking)
    && (forall p | 0 <= p < NPROC && s.pid[p] in s.forking :: s.state[p] == Embryo || s.state[p] == Runnable)
  }

  ghost predicate HasOwner(s: Sched, i: nat)
    requires Wf(s)
  {
    exists p :: Owns(s, p, i)
  }

  ghost predicate HasSlot(s: Sched, p: nat)
    requires Wf(s)
  {
    exists i :: Owns(s, p, i)
  }

  // No slot, used or not, carries the pid of a live process but that process's own.
  ghost predicate NoStaleMatch(s: Sched)
    requires Wf(s)
  {
    forall p, i | 0 <= p < NPROC && 0 <= i < NPROC && (Live(s.state[p]) || s.state[p] == Embryo) && s.slotPid[i] == s.pid[p] ::
      s.inuse[i] && s.pid[p] !in s.forking
  }

  ghost predicate SlotsOk(s: Sched)
    requires Wf(s)
  {
    && (forall i | 0 <= i < NPROC :: s.slotPid[i] < s.nextPid)
    && (forall i | 0 <= i < NPROC && s.inuse[i] :: HasOwner(s, i))
    && (forall i, j | 0 <= i < j < NPROC && s.inuse[i] && s.inuse[j] :: s.slotPid[i] != s.slotPid[j])
    && (forall p | 0 <= p < NPROC && Tracked(s, p) :: HasSlot(s, p))
    && NoStaleMatch(s)
    && (forall p | 0 <= p < NPROC && s.state[p] == Running :: Owns(s, p, s.curr))
  }

  ghost predicate StridesOk(s: Sched)
    requires Wf(s)
  {
    && (forall i | 0 <= i < NPROC :: 0 <= s.strides[i] <= MAX_STRIDE)
    && (forall i | 0 <= i < NPROC && s.inuse[i] :: s.tickets[i] >= 1 && s.strides[i] == MAX_STRIDE / s.tickets[i])
  }

  ghost predicate Inv(s: Sched) { Wf(s) && PidsOk(s) && SlotsOk(s) && StridesOk(s) }

  lemma BootInv()
    ensures Inv(Boot())
  {
    hide Fill;
    var s := Boot();
    BootFields();
    assert MAX_STRIDE / 1 == MAX_STRIDE;
    assert Owns(s, 0, 0);
    assert HasOwner(s, 0) && HasSlot(s, 0);
  }

  lemma BootFields()
    ensures var s := Boot();
      && s.state[0] == Runnable && s.pid[0] == 1 && s.inuse[0] && s.slotPid[0] == 1
      && s.tickets[0] == 1 && s.strides[0] == MAX_STRIDE && s.pass[0] == MAX_STRIDE
      && forall i | 1 <= i < NPROC ::
           && s.state[i] == Unused && s.pid[i] == 0 && !s.inuse[i] && s.slotPid[i] == 0
           && s.strides[i] == 0 && s.pass[i] == 0
  {
  }

  // ---------------------------------------------------------------- pigeonhole

  ghost function SlotPids(s: Sched, n: nat): set<int>
    requires Wf(s) && n <= NPROC
  {
    set i | 0 <= i < n :: s.slotPid[i]
  }

  ghost function Pids(s: Sched, n: nat): set<int>
    requires Wf(s) && n <= NPROC
  {
    set p | 0 <= p < n :: s.pid[p]
  }

  lemma {:induction false} SlotPidsSize(s: Sched, n: nat)
    requires Inv(s) && n <= NPROC && forall i | 0 <= i < NPROC :: s.inuse[i]
    ensures |SlotPids(s, n)| == n
  {
    hide PidsOk;
    hide NoStaleMatch;
    hide StridesOk;
    hide HasOwner;
    hide HasSlot;
    if n > 0 {
      SlotPidsSize(s, n - 1);
      assert SlotPids(s, n) == SlotPids(s, n - 1) + {s.slotPid[n - 1]};
    }
  }

  lemma {:induction false} PidsSize(s: Sched, n: nat)
    requires Wf(s) && n <= NPROC
    ensures |Pids(s, n)| <= n
  {
    if n > 0 {
      PidsSize(s, n - 1);
      assert Pids(s, n) == Pids(s, n - 1) + {s.pid[n - 1]};
    }
  }

  lemma {:induction false} ProperSubsetSize<T>(a: set<T>, b: set<T>, x: T)
    requires a <= b && x in b && x !in a
    ensures |a| < |b|
  {
    if a != {} {
      var y :| y in a;
      ProperSubsetSize(a - {y}, b - {y}, x);
    }
  }

  lemma SlotPidsTracked(s: Sched, np: nat)
    requires Inv(s) && (forall i | 0 <= i < NPROC :: s.inuse[i]) && Is(s, np, Runnable) && s.pid[np] in s.forking
    ensures SlotPids(s, NPROC) <= Pids(s, NPROC) && s.pid[np] !in SlotPids(s, NPROC)
  {
    forall x | x in SlotPids(s, NPROC) ensures x in Pids(s, NPROC) && x != s.pid[np] {
      var i :| 0 <= i < NPROC && x == s.slotPid[i];
      assert HasOwner(s, i);
      var q :| Owns(s, q, i);
    }
  }

  lemma PidIsThere(s: Sched, p: nat)
    requires Wf(s) && p < NPROC
    ensures s.pid[p] in Pids(s, NPROC)
  {
  }

  lemma WrapIs(c: nat, k: nat)
    requires c < NPROC && k < NPROC
    ensures Wrap(c, k) == if c + k < NPROC then c + k else c + k - NPROC
  {
  }

  // The scan visits every slot but the current one.
  lemma ScanCovers(s: Sched, i: nat)
    requires Wf(s) && FreeSlot(s, 1).None? && i < NPROC && i != s.curr
    ensures s.inuse[i]
  {
    hide Wrap;
    hide FreeSlot;
    WrapIs(s.curr, if i > s.curr then i - s.curr else i - s.curr + NPROC);
  }

  /** fork's scan finds a slot whenever it runs: its missing failure branch is never needed. */
  lemma FreeSlotFound(s: Sched, p: nat, np: nat)
    requires Inv(s) && Is(s, p, Running) && Is(s, np, Runnable) && s.pid[np] in s.forking
    ensures FreeSlot(s, 1).Some?
  {
    hide FreeSlot;
    hide NoStaleMatch;
    hide PidsOk;
    hide StridesOk;
    hide Pids;
    hide SlotPids;
    if FreeSlot(s, 1).None? {
      assert Owns(s, p, s.curr);
      forall i | 0 <= i < NPROC ensures s.inuse[i] {
        if i != s.curr { ScanCovers(s, i); }
      }
      SlotPidsSize(s, NPROC);
      PidsSize(s, NPROC);
      SlotPidsTracked(s, np);
      PidIsThere(s, np);
      ProperSubsetSize(SlotPids(s, NPROC), Pids(s, NPROC), s.pid[np]);
    }
  }

  // ---------------------------------------------------------------- every step keeps the slot table

  // A step that changes no slot's owner.
  lemma SameOwners(s: Sched, s1: Sched)
    requires Inv(s) && Wf(s1) && s1.inuse == s.inuse && s1.slotPid == s.slotPid && s1.nextPid >= s.nextPid
    requires forall p: nat :: Tracked(s1, p) <==> Tracked(s, p)
    requires forall p: nat | Tracked(s, p) :: s1.pid[p] == s.pid[p]
    requires NoStaleMatch(s1)
    requires forall p | 0 <= p < NPROC && s1.state[p] == Running :: Owns(s1, p, s1.curr)
    ensures SlotsOk(s1)
  {
    hide PidsOk;
    hide StridesOk;
    hide NoStaleMatch;
    hide Tracked;
    forall i | 0 <= i < NPROC && s1.inuse[i] ensures HasOwner(s1, i) {
      assert HasOwner(s, i);
      var p :| Owns(s, p, i);
      assert Owns(s1, p, i);
    }
    forall p | 0 <= p < NPROC && Tracked(s1, p) ensures HasSlot(s1, p) {
      assert HasSlot(s, p);
      var i :| Owns(s, p, i);
      assert Owns(s1, p, i);
    }
  }

  // The running process is tracked and owns the current slot, and nobody else runs.
  lemma OneRunning(s: Sched, p: nat, q: nat)
    requires Inv(s) && Is(s, p, Running)
    ensures Tracked(s, p) && Owns(s, p, s.curr) && (Is(s, q, Running) ==> q == p)
  {
    hide NoStaleMatch;
    hide StridesOk;
    assert Owns(s, p, s.curr);
    if Is(s, q, Running) { assert Owns(s, q, s.curr); }
  }

  lemma AllocPids(s: Sched, p: nat, s1: Sched)
    requires Inv(s) && Step(s, AllocProc(p)) == Some(s1)
    ensures PidsOk(s1)
  {
    hide SlotsOk;
    hide StridesOk;
    hide FirstUnused;
  }

  lemma SchedulePids(s: Sched, s1: Sched)
    requires Inv(s) && Step(s, Schedule) == Some(s1)
    ensures PidsOk(s1)
  {
    hide HasOwner;
    hide HasSlot;
    hide StridesOk;
    hide Pick;
    PickIsLeast(s);
  }

  lemma PlainPids(s: Sched, ev: Event, s1: Sched)
    requires Inv(s) && Step(s, ev) == Some(s1) && !ev.AllocProc? && !ev.Schedule?
    ensures PidsOk(s1)
  {
    hide SlotsOk;
    hide StridesOk;
    hide FreeSlot;
    hide Step;
    PlainShape(s, ev, s1);
  }

  // These steps only end forks and move entries between states, and reap's entry has pid 0.
  lemma PlainShape(s: Sched, ev: Event, s1: Sched)
    requires Wf(s) && PidsOk(s) && Step(s, ev) == Some(s1) && !ev.AllocProc? && !ev.Schedule?
    ensures s1.nextPid == s.nextPid && s1.forking <= s.forking
    ensures forall p | 0 <= p < NPROC && s1.state[p] != Unused :: s.state[p] != Unused && s1.pid[p] == s.pid[p]
    ensures forall p | 0 <= p < NPROC :: s1.pid[p] == s.pid[p] || s1.pid[p] == 0
    ensures forall p | 0 <= p < NPROC && s1.state[p] == Embryo :: s.state[p] == Embryo && s1.pid[p] in s1.forking
    ensures forall p | 0 <= p < NPROC && s1.pid[p] in s1.forking :: s1.state[p] == Embryo || s1.state[p] == Runnable
  {
    hide FreeSlot;
  }

  lemma StepStrides(s: Sched, ev: Event, s1: Sched)
    requires Inv(s) && Step(s, ev) == Some(s1)
    ensures StridesOk(s1)
  {
    hide NoStaleMatch;
    hide PidsOk;
    hide HasOwner;
    hide HasSlot;
    hide Pick;
    hide FirstUnused;
    hide FreeSlot;
    match ev
    case AddPstat(p, np) => assert Owns(s, p, s.curr);
    case Tickets(p, number) => StrideInRange(number);
    case _ =>
  }

  lemma StrideInRange(number: int)
    requires number >= 1
    ensures 0 <= MAX_STRIDE / number <= MAX_STRIDE
  {
  }

  // Steps of fork that change no owner.
  lemma ForkSlots(s: Sched, ev: Event, s1: Sched)
    requires Inv(s) && Step(s, ev) == Some(s1) && (ev.AllocProc? || ev.ForkFails? || ev.MakeRunnable?)
    ensures SlotsOk(s1)
  {
    hide FirstUnused;
    hide StridesOk;
    hide HasOwner;
    hide HasSlot;
    SameOwners(s, s1);
  }

  // Other steps that change no owner.
  lemma PlainSlots(s: Sched, ev: Event, s1: Sched)
    requires Inv(s) && Step(s, ev) == Some(s1)
    requires ev.Yield? || ev.Sleep? || ev.Wakeup? || ev.Reap? || ev.Tickets?
    ensures SlotsOk(s1)
  {
    hide FirstUnused;
    hide StridesOk;
    hide HasOwner;
    hide HasSlot;
    SameOwners(s, s1);
  }

  lemma ScheduleSlots(s: Sched, s1: Sched)
    requires Inv(s) && Step(s, Schedule) == Some(s1)
    ensures SlotsOk(s1)
  {
    hide StridesOk;
    hide HasOwner;
    hide HasSlot;
    hide Pick;
    PickIsLeast(s);
    if s1 != s { SameOwners(s, s1); }
  }

  lemma OnlyRunning(s: Sched, p: nat)
    requires Inv(s) && Is(s, p, Running)
    ensures forall q | 0 <= q < NPROC && q != p :: s.state[q] != Running
  {
    hide PidsOk;
    hide SlotsOk;
    hide StridesOk;
    forall q | 0 <= q < NPROC && q != p ensures s.state[q] != Running {
      var r: nat := q;
      OneRunning(s, p, r);
    }
  }

  // Owners survive a step that keeps their slot and their entry.
  lemma OwnersSurvive(s: Sched, s1: Sched)
    requires Inv(s) && Wf(s1)
    requires forall i | 0 <= i < NPROC && s1.inuse[i] :: HasOwner(s1, i) || (s.inuse[i] && s1.slotPid[i] == s.slotPid[i])
    requires forall q: nat | Tracked(s1, q) :: HasSlot(s1, q) || (Tracked(s, q) && s1.pid[q] == s.pid[q])
    requires forall q: nat, i: nat | Owns(s, q, i) && (s1.inuse[i] || Tracked(s1, q)) :: Owns(s1, q, i)
    ensures forall i | 0 <= i < NPROC && s1.inuse[i] :: HasOwner(s1, i)
    ensures forall q | 0 <= q < NPROC && Tracked(s1, q) :: HasSlot(s1, q)
  {
    hide PidsOk;
    hide StridesOk;
    hide NoStaleMatch;
    forall i | 0 <= i < NPROC && s1.inuse[i] ensures HasOwner(s1, i) {
      if s.inuse[i] && s1.slotPid[i] == s.slotPid[i] {
        assert HasOwner(s, i);
        var q :| Owns(s, q, i);
      }
    }
    forall q | 0 <= q < NPROC && Tracked(s1, q) ensures HasSlot(s1, q) {
      if Tracked(s, q) && s1.pid[q] == s.pid[q] {
        assert HasSlot(s, q);
        var i :| Owns(s, q, i);
      }
    }
  }

  lemma ExitSlots(s: Sched, p: nat, s1: Sched)
    requires Inv(s) && Step(s, Exit(p)) == Some(s1)
    ensures SlotsOk(s1)
  {
    hide StridesOk;
    hide HasOwner;
    hide HasSlot;
    OneRunning(s, p, p);
    OnlyRunning(s, p);
    OwnersSurvive(s, s1);
  }

  lemma AddShape(s: Sched, p: nat, np: nat, s1: Sched)
    requires Inv(s) && Step(s, AddPstat(p, np)) == Some(s1)
    ensures var n := FreeSlot(s, 1);
      && n.Some? && n.value < NPROC && !s.inuse[n.value] && np < NPROC && s.state[np] == Runnable && s.pid[np] in s.forking
      && s1.state == s.state && s1.pid == s.pid && s1.nextPid == s.nextPid && s1.curr == s.curr
      && s1.inuse == s.inuse[n.value := true] && s1.slotPid == s.slotPid[n.value := s.pid[np]]
      && s1.forking == s.forking - {s.pid[np]} && n.value != s.curr && Is(s, p, Running)
  {
    hide Inv;
    FreeSlotFound(s, p, np);
  }

  lemma AddSlots(s: Sched, p: nat, np: nat, s1: Sched)
    requires Inv(s) && Step(s, AddPstat(p, np)) == Some(s1)
    ensures SlotsOk(s1)
  {
    hide StridesOk;
    hide Step;
    hide FreeSlot;
    hide HasOwner;
    hide HasSlot;
    AddShape(s, p, np, s1);
    var n := FreeSlot(s, 1).value;
    OneRunning(s, p, p);
    OnlyRunning(s, p);
    OwnsBoth(s1, np, n);
    OwnersSurvive(s, s1);
  }

  lemma OwnsBoth(s: Sched, p: nat, i: nat)
    requires Wf(s) && Owns(s, p, i)
    ensures HasOwner(s, i) && HasSlot(s, p)
  {
  }

  lemma StepInv(s: Sched, ev: Event)
    requires Inv(s) && Step(s, ev).Some?
    ensures Inv(Step(s, ev).value)
  {
    hide Step;
    hide PidsOk;
    hide SlotsOk;
    hide StridesOk;
    var s1 := Step(s, ev).value;
    StepStrides(s, ev, s1);
    match ev
    case Schedule => SchedulePids(s, s1); ScheduleSlots(s, s1);
    case AllocProc(p) => AllocPids(s, p, s1); ForkSlots(s, ev, s1);
    case ForkFails(np) => PlainPids(s, ev, s1); ForkSlots(s, ev, s1);
    case MakeRunnable(np) => PlainPids(s, ev, s1); ForkSlots(s, ev, s1);
    case Exit(p) => PlainPids(s, ev, s1); ExitSlots(s, p, s1);
    case AddPstat(p, np) => PlainPids(s, ev, s1); AddSlots(s, p, np, s1);
    case _ => PlainPids(s, ev, s1); PlainSlots(s, ev, s1);
  }

  /** The state after a run; None when some event could not happen. */
  function Run(s: Sched, run: seq<Event>): (r: Option<Sched>)
    requires Wf(s)
    ensures r.Some? ==> Wf(r.value)
    decreases |run|
  {
    if run == [] then Some(s)
    else match Step(s, run[0]) case None => None case Some(s1) => Run(s1, run[1..])
  }

  lemma {:induction false} RunInv(s: Sched, run: seq<Event>)
    requires Inv(s) && Run(s, run).Some?
    ensures Inv(Run(s, run).value)
    decreases |run|
  {
    hide Step;
    hide PidsOk;
    hide SlotsOk;
    hide StridesOk;
    if run != [] {
      StepInv(s, run[0]);
      RunInv(Step(s, run[0]).value, run[1..]);
    }
  }

  /** The slot table, over any run: a live process past its fork has exactly one slot in use
      with its pid, and a slot in use belongs to exactly one such process. */
  lemma SlotTable(run: seq<Event>, p: nat, i: nat)
    requires Run(Boot(), run).Some? && p < NPROC && i < NPROC
    ensures var s := Run(Boot(), run).value;
      && (Tracked(s, p) ==> exists k :: Owns(s, p, k) && forall j: nat | Owns(s, p, j) :: j == k)
      && (s.inuse[i] ==> exists q :: Owns(s, q, i) && forall r: nat | Owns(s, r, i) :: r == q)
  {
    hide Run;
    hide Boot;
    BootInv();
    RunInv(Boot(), run);
    OneSlotEach(Run(Boot(), run).value, p);
    OneOwnerEach(Run(Boot(), run).value, i);
  }

  lemma OneSlotEach(s: Sched, p: nat)
    requires Inv(s) && p < NPROC
    ensures Tracked(s, p) ==> exists k :: Owns(s, p, k) && forall j: nat | Owns(s, p, j) :: j == k
  {
    hide PidsOk;
    hide NoStaleMatch;
    hide StridesOk;
    hide HasOwner;
    if Tracked(s, p) { assert HasSlot(s, p); }
  }

  lemma SameOwner(s: Sched, q: nat, r: nat, i: nat)
    requires Inv(s) && Owns(s, q, i) && Owns(s, r, i)
    ensures r == q
  {
    hide SlotsOk;
    hide StridesOk;
  }

  lemma OneOwnerEach(s: Sched, i: nat)
    requires Inv(s) && i < NPROC
    ensures s.inuse[i] ==> exists q :: Owns(s, q, i) && forall r: nat | Owns(s, r, i) :: r == q
  {
    hide PidsOk;
    hide NoStaleMatch;
    hide StridesOk;
    hide HasSlot;
    hide Live;
    hide Tracked;
    if s.inuse[i] {
      assert HasOwner(s, i);
      var q :| Owns(s, q, i);
      forall r: nat | Owns(s, r, i) ensures r == q { SameOwner(s, q, r, i); }
    }
  }

  /** Over any run, the running process's slot is the current one, and a fork that reaches its
      pstat update finds a free slot, so its missing failure branch is never needed. */
  lemma CurrentSlot(run: seq<Event>, p: nat, np: nat)
    requires Run(Boot(), run).Some? && p < NPROC && np < NPROC
    ensures var s := Run(Boot(), run).value;
      Is(s, p, Running) ==> Owns(s, p, s.curr) && (s.state[np] == Runnable && s.pid[np] in s.forking ==> FreeSlot(s, 1).Some?)
  {
    hide Run;
    hide Boot;
    hide FreeSlot;
    hide Inv;
    BootInv();
    RunInv(Boot(), run);
    var s := Run(Boot(), run).value;
    if Is(s, p, Running) {
      OneRunning(s, p, p);
      if s.state[np] == Runnable && s.pid[np] in s.forking { FreeSlotFound(s, p, np); }
    }
  }
}
