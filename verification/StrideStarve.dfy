/** A run of the stride scheduler (P4_XV6_Stride_Scheduling/kernel/proc.c) from its first state
    into one where a process starves: the first process forks a child and asks for more than
    16384 tickets. */
module StrideStarve {
  import opened StrideTable
  import opened StrideFair
  import opened Wrappers

  /** The first process and its child, both RUNNABLE, in slots 0 and 1; the first has stride 0. */
  ghost predicate Pair(s: Sched, x: int, y: int, c: nat) {
    && Wf(s) && s.forking == {} && s.curr == c <= 1
    && s.state[0] == Runnable && s.state[1] == Runnable && s.pid[0] == 1 && s.pid[1] == 2
    && s.inuse[0] && s.inuse[1] && s.slotPid[0] == 1 && s.slotPid[1] == 2
    && s.strides[0] == 0 && s.strides[1] == MAX_STRIDE && s.pass[0] == x && s.pass[1] == y
    && forall i | 2 <= i < NPROC :: s.state[i] == Unused && !s.inuse[i] && s.slotPid[i] == 0
  }

  lemma PairCandidates(s: Sched, x: int, y: int, c: nat)
    requires Pair(s, x, y, c)
    ensures Candidate(s, 0, 0) && Candidate(s, 1, 1)
    ensures forall p: nat, i: nat :: Candidate(s, p, i) ==> p == i <= 1
    ensures Idle(s) && Competes(s, 0) && Competes(s, 1)
  {
    assert Candidate(s, 0, 0) && Candidate(s, 1, 1);
    forall p: nat, i: nat ensures Candidate(s, p, i) ==> p == i <= 1 {}
  }

  /** One more round: the lesser pass value is picked, the child on a tie, and the slot before
      it is charged. */
  lemma PairRound(s: Sched, x: int, y: int, c: nat, s1: Sched)
    requires Pair(s, x, y, c) && s1 == AfterRound(s)
    ensures Pick(s).Some?
    ensures Pair(s1, x, if c == 1 then y + MAX_STRIDE else y, if y <= x then 1 else 0)
  {
    hide Pick;
    hide AfterRound;
    PairCandidates(s, x, y, c);
    PickIsLeast(s);
    RoundShape(s);
    assert Rank(1, 1) > Rank(0, 0);
  }

  lemma RoundsAgain(s: Sched, n: nat)
    requires Wf(s) && Idle(s) && Pick(s).Some?
    ensures Run(s, Rounds(s, n + 1)) == Run(AfterRound(s), Rounds(AfterRound(s), n))
  {
    hide Step;
    hide Pick;
    hide Dispatch;
    hide AfterRound;
    RoundSteps(s, n + 1);
    assert Run(Dispatch(s), Rounds(s, n + 1)[1..]) == Run(AfterRound(s), Rounds(AfterRound(s), n));
  }

  // ---------------------------------------------------------------- the first six steps

  /** The first process runs, forks, asks for the tickets and yields. */
  function Opening(number: int): seq<Event> {
    [Schedule, AllocProc(0), MakeRunnable(1), AddPstat(0, 1), Tickets(0, number), Yield(0)]
  }

  lemma FirstPick()
    ensures Pick(Boot()) == Some((0, 0)) && Step(Boot(), Schedule) == Some(Dispatch(Boot()))
  {
    hide Fill;
    hide Pick;
    hide Dispatch;
    BootFields();
    PickIsLeast(Boot());
    assert Candidate(Boot(), 0, 0);
    forall p: nat, i: nat | Candidate(Boot(), p, i) ensures p == 0 && i == 0 {}
  }

  // Process 0 alone, running in slot 0, charged once.
  ghost predicate Lone(s: Sched) {
    && Wf(s) && s.forking == {} && s.curr == 0 && s.nextPid == 2
    && s.state[0] == Running && s.pid[0] == 1 && s.inuse[0] && s.slotPid[0] == 1
    && s.tickets[0] == 1 && s.strides[0] == MAX_STRIDE && s.pass[0] == 2 * MAX_STRIDE
    && forall i | 1 <= i < NPROC :: s.state[i] == Unused && !s.inuse[i] && s.slotPid[i] == 0
  }

  lemma AfterFirst()
    ensures Lone(Dispatch(Boot()))
  {
    hide Fill;
    hide Pick;
    BootFields();
    FirstPick();
  }

  lemma ForkSteps(s: Sched, number: int)
    requires Lone(s) && number > MAX_STRIDE
    ensures var r := Run(s, Opening(number)[1..]); r.Some? && Pair(r.value, 2 * MAX_STRIDE, MAX_STRIDE, 0)
  {
    var s1 := s.(state := s.state[1 := Embryo], pid := s.pid[1 := 2], nextPid := 3, forking := {2});
    assert FirstUnused(s, 0) == 1;
    assert s.forking + {2} == {2};
    assert Step(s, AllocProc(0)) == Some(s1);
    var s2 := s1.(state := s1.state[1 := Runnable]);
    assert Step(s1, MakeRunnable(1)) == Some(s2);
    ForkTail(s2, number);
    assert Opening(number)[1..][0] == AllocProc(0) && Opening(number)[1..][1..][0] == MakeRunnable(1);
    assert Opening(number)[1..][1..][1..] == [AddPstat(0, 1), Tickets(0, number), Yield(0)];
  }

  // The child is RUNNABLE and has no slot yet.
  lemma ForkTail(s: Sched, number: int)
    requires Wf(s) && s.forking == {2} && s.curr == 0 && number > MAX_STRIDE
    requires s.state[0] == Running && s.pid[0] == 1 && s.inuse[0] && s.slotPid[0] == 1 && s.state[1] == Runnable && s.pid[1] == 2
    requires s.tickets[0] == 1 && s.strides[0] == MAX_STRIDE && s.pass[0] == 2 * MAX_STRIDE && !s.inuse[1]
    requires forall i | 2 <= i < NPROC :: s.state[i] == Unused && !s.inuse[i] && s.slotPid[i] == 0
    ensures var r := Run(s, [AddPstat(0, 1), Tickets(0, number), Yield(0)]);
      r.Some? && Pair(r.value, 2 * MAX_STRIDE, MAX_STRIDE, 0)
  {
    assert Wrap(0, 1) == 1 && FreeSlot(s, 1) == Some(1);
    var s1 := Step(s, AddPstat(0, 1)).value;
    var s2 := Step(s1, Tickets(0, number)).value;
    var s3 := Step(s2, Yield(0)).value;
    StridePositive(number);
    assert MAX_STRIDE / number == 0;
    assert [AddPstat(0, 1), Tickets(0, number), Yield(0)][1..] == [Tickets(0, number), Yield(0)];
    assert [Tickets(0, number), Yield(0)][1..] == [Yield(0)] && [Yield(0)][1..] == [];
    assert Run(s2, [Yield(0)]) == Some(s3);
    assert Run(s1, [Tickets(0, number), Yield(0)]) == Some(s3);
    assert Run(s, [AddPstat(0, 1), Tickets(0, number), Yield(0)]) == Some(s3);
  }

  // ---------------------------------------------------------------- and four rounds

  lemma {:induction false} RunBoth(s: Sched, a: seq<Event>, b: seq<Event>)
    requires Wf(s) && Run(s, a).Some?
    ensures Run(s, a + b) == Run(Run(s, a).value, b)
    decreases |a|
  {
    hide Step;
    if a == [] {
      assert a + b == b;
    } else {
      assert (a + b)[1..] == a[1..] + b;
      RunBoth(Step(s, a[0]).value, a[1..], b);
    }
  }

  lemma FourRounds(s: Sched)
    requires Wf(s) && Pair(s, 2 * MAX_STRIDE, MAX_STRIDE, 0)
    ensures var r := Run(s, Rounds(s, 4)); r.Some? && Pair(r.value, 2 * MAX_STRIDE, 4 * MAX_STRIDE, 0)
  {
    hide Run;
    hide Rounds;
    hide AfterRound;
    hide Pick;
    hide Pair;
    var s1, s2 := AfterRound(s), AfterRound(AfterRound(s));
    var s3, s4 := AfterRound(s2), AfterRound(AfterRound(s2));
    OneRound(s, 2 * MAX_STRIDE, MAX_STRIDE, 0, 3);
    OneRound(s1, 2 * MAX_STRIDE, MAX_STRIDE, 1, 2);
    OneRound(s2, 2 * MAX_STRIDE, 2 * MAX_STRIDE, 1, 1);
    OneRound(s3, 2 * MAX_STRIDE, 3 * MAX_STRIDE, 1, 0);
    NoRounds(s4);
  }

  lemma OneRound(s: Sched, x: int, y: int, c: nat, n: nat)
    requires Pair(s, x, y, c)
    ensures var s1 := AfterRound(s);
      Pair(s1, x, if c == 1 then y + MAX_STRIDE else y, if y <= x then 1 else 0)
      && Run(s, Rounds(s, n + 1)) == Run(s1, Rounds(s1, n))
  {
    hide AfterRound;
    hide Pick;
    PairRound(s, x, y, c, AfterRound(s));
    PairCandidates(s, x, y, c);
    RoundsAgain(s, n);
  }

  lemma NoRounds(s: Sched)
    requires Wf(s)
    ensures Run(s, Rounds(s, 0)) == Some(s)
  {
  }

  lemma PairBlocked(s: Sched)
    requires Pair(s, 2 * MAX_STRIDE, 4 * MAX_STRIDE, 0)
    ensures Blocks(s, 0, 1) && Blocked(s, 1)
    ensures forall k: nat | k < NPROC && s.inuse[k] :: Competes(s, k)
  {
    PairCandidates(s, 2 * MAX_STRIDE, 4 * MAX_STRIDE, 0);
  }

  /** With any number of tickets above 16384 there is a run from the first state into one where
      the child, RUNNABLE all along, is passed over by as many dispatches as one likes. */
  lemma StarvationReached(number: int) returns (run: seq<Event>)
    requires number > MAX_STRIDE
    ensures Opening(number) <= run && Run(Boot(), run).Some?
    ensures var s := Run(Boot(), run).value;
      && Inv(s) && Idle(s) && Competes(s, 1) && s.pid[1] == 2 && Blocked(s, 1)
      && forall n: nat :: Starves(s, 1, n)
  {
    hide Run;
    hide Rounds;
    hide Pick;
    hide Dispatch;
    hide Blocks;
    var open := Opening(number);
    FirstPick();
    AfterFirst();
    ForkSteps(Dispatch(Boot()), number);
    FirstThenRest(number);
    var s := Run(Boot(), open).value;
    FourRounds(s);
    RunBoth(Boot(), open, Rounds(s, 4));
    run := open + Rounds(s, 4);
    var t := Run(s, Rounds(s, 4)).value;
    BootInv();
    RunInv(Boot(), run);
    PairCandidates(t, 2 * MAX_STRIDE, 4 * MAX_STRIDE, 0);
    PairBlocked(t);
    forall n: nat ensures Starves(t, 1, n) { StarvesForever(t, 1, 0, n); }
  }

  /** There is a run of n dispatches in which j is RUNNABLE at every choice and never chosen. */
  ghost predicate Starves(s: Sched, j: nat, n: nat)
    requires Wf(s)
  {
    Run(s, Rounds(s, n)).Some? && Waits(s, Rounds(s, n), j) && Schedules(Rounds(s, n)) == n
  }

  lemma FirstThenRest(number: int)
    requires Step(Boot(), Schedule) == Some(Dispatch(Boot()))
    ensures Run(Boot(), Opening(number)) == Run(Dispatch(Boot()), Opening(number)[1..])
  {
    hide Step;
    hide Dispatch;
    hide Boot;
  }
}
