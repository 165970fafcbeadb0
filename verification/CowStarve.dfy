/** That a machine can run out of frames and then meet a copying page fault, whose kalloc
    pgfltintr does not check (P5_XV6_CoW_Fork/kernel/vm.c): a run from its start to there. */
module CowStarve {
  import opened Kalloc
  import opened Vm
  import opened VmProofs
  import opened CowFrames
  import opened CowSystem
  import opened CowBoot

  // A child: its kernel stack and its directory.
  const FORK_FRAMES: nat := 1 + DIR_FRAMES
  const CHILD: nat := INITPID + 1

  /** Page 0 of the two processes is one frame. */
  ghost predicate OneFrame(s: Sys, p: nat, q: nat)
    requires SysWf(s) && p in s.procs && q in s.procs
  {
    Mapped(s, p, 0) && Mapped(s, q, 0) && UserPte(s, p, 0).frame == UserPte(s, q, 0).frame
  }

  // init has one page and the child still shares it.
  ghost predicate Sharing(s: Sys) {
    && SysInv(s) && SysWf(s)
    && INITPID in s.procs && CHILD in s.procs && !s.procs[INITPID].zombie && !s.procs[CHILD].zombie
    && s.procs[INITPID].sz == PGSIZE && OneFrame(s, INITPID, CHILD)
  }

  // Every process that had page 0 still has it, in the same frame.
  ghost predicate PagesStay(s: Sys, s1: Sys) {
    && SysWf(s) && SysWf(s1) && s.procs.Keys <= s1.procs.Keys
    && forall p | p in s.procs && Mapped(s, p, 0) :: OneStays(s, s1, p)
  }

  ghost predicate OneStays(s: Sys, s1: Sys, p: nat)
    requires SysWf(s) && SysWf(s1) && p in s.procs && p in s1.procs && Mapped(s, p, 0)
  {
    Mapped(s1, p, 0) && UserPte(s1, p, 0).frame == UserPte(s, p, 0).frame
  }

  // pid has a new child of one page, in pid's frame.
  ghost predicate NewChild(s: Sys, s1: Sys, pid: nat) {
    && SysWf(s1) && s.nextPid !in s.procs && s.nextPid in s1.procs && pid in s1.procs
    && s1.procs == s.procs[s.nextPid := s1.procs[s.nextPid]]
    && s1.procs[s.nextPid].sz == PGSIZE && !s1.procs[s.nextPid].zombie
    && OneFrame(s1, pid, s.nextPid)
  }

  // ---------------------------------------------------------------- one step

  lemma KeepsPage(s: Sys, s1: Sys, p: nat)
    requires SysWf(s) && SysWf(s1) && Keeps(s.vm, s1.vm, {}) && p in s.procs && p in s1.procs && s1.procs[p].dir == s.procs[p].dir
    ensures Mapped(s1, p, 0) <==> Mapped(s, p, 0)
    ensures Mapped(s, p, 0) ==> UserPte(s1, p, 0).frame == UserPte(s, p, 0).frame
  {
    hide UserView;
  }

  /** A copy-on-write fork of a process with one page takes 14 frames if there are that many. */
  lemma ForkOne(s: Sys, pid: nat, r: StepResult)
    requires SysInv(s) && SysWf(s) && Enabled(s, Fork(pid)) && |s.procs| < NPROC && |s.vm.km.freelist| >= FORK_FRAMES
    requires s.procs[pid].sz == PGSIZE && Mapped(s, pid, 0) && r == Step(s, Fork(pid), Cow)
    ensures r.Next? && r.ret == s.nextPid && SysInv(r.s) && SysWf(r.s)
    ensures |r.s.vm.km.freelist| == |s.vm.km.freelist| - FORK_FRAMES && r.s.nextPid == s.nextPid + 1
    ensures NewChild(s, r.s, pid) && PagesStay(s, r.s)
  {
    hide SysInv;
    hide VmInv;
    hide Keeps;
    hide SetupKvm;
    hide CowFrom;
    hide ProcsOk;
    hide Refines;
    hide Present;
    SysFacts(s);
    SysProc(s, pid);
    var stack, vm0 := Alloc(s.vm.km).frame, s.vm.(km := Alloc(s.vm.km).km);
    ForkStack(s, stack, vm0);
    var ext1 := Stacked(s.kstacks)[KStack(s.nextPid) := stack];
    var src := s.procs[pid].dir;
    var made := SetupKvm(vm0);
    SetupKvmKeeps(vm0, ext1, made);
    SetupFrames(vm0, ext1);
    OnePage(s.vm, src);
    SamePresent(s.vm, vm0, src, 1);
    SamePresent(vm0, made.vm, src, 1);
    assert PageRoundUp(PGSIZE) == 1;
    var dup := CowFrom(made.vm, src, made.dir, 0, PGSIZE);
    CowKeeps(made.vm, ext1, src, made.dir, 0, PGSIZE, dup);
    ShareFrames(made.vm, src, made.dir, 0, PGSIZE, dup);
    assert dup == DupUvm(vm0, src, PGSIZE, Cow);
    CowNewDir(made.vm, src, made.dir, 0, PGSIZE, dup);
    assert r == ForkFinish(s, pid, stack, dup);
    ForkRefines(s, pid, Cow, r);
    StepSound(s, Fork(pid), r);
    ForkedPages(s, pid, r);
  }

  lemma OnePage(vm: Vm, d: nat)
    requires d in vm.dirs && 0 in vm.dirs[d].ptes
    ensures Present(vm, d, 0, 1)
  {
  }

  lemma {:induction false} CowNewDir(vm: Vm, src: nat, d: nat, v: nat, sz: nat, r: DirOutcome)
    requires vm.Wf() && src in vm.dirs && d in vm.dirs && r == CowFrom(vm, src, d, v, sz) && r.NewDir?
    ensures r.dir == d
    decreases sz - v * PGSIZE
  {
    hide MapPages;
    if v * PGSIZE < sz {
      var e := vm.dirs[src].ptes[v].(w := false);
      var mapped := MapPages(SetPte(vm, src, v, e), d, v, 1, e.frame, e.w, e.u);
      if mapped.Ok? { CowNewDir(mapped.vm.(km := Inc(mapped.vm.km, e.frame)), src, d, v + 1, sz, r); }
    }
  }

  lemma ForkedPages(s: Sys, pid: nat, r: StepResult)
    requires SysInv(s) && SysWf(s) && Enabled(s, Fork(pid)) && r == DoFork(s, pid, Cow) && r.Next? && r.ret >= 0 && SysWf(r.s)
    ensures s.nextPid !in s.procs && PagesStay(s, r.s)
  {
    hide SysInv;
    hide VmInv;
    hide Keeps;
    hide DoFork;
    SysFacts(s);
    var stack := ForkShape(s, pid, Cow, r);
    forall p | p in s.procs && Mapped(s, p, 0) ensures OneStays(s, r.s, p) { KeepsPage(s, r.s, p); }
  }

  /** Growing a process of one page by k pages takes k frames if there are that many. */
  lemma GrowBy(s: Sys, pid: nat, k: nat, r: StepResult)
    requires SysInv(s) && SysWf(s) && 1 <= k < USERPAGES && k <= |s.vm.km.freelist|
    requires Enabled(s, Sbrk(pid, k * PGSIZE)) && s.procs[pid].sz == PGSIZE && r == Step(s, Sbrk(pid, k * PGSIZE), Cow)
    ensures r.Next? && r.ret == 0 && SysInv(r.s) && SysWf(r.s) && r.s.nextPid == s.nextPid
    ensures |r.s.vm.km.freelist| == |s.vm.km.freelist| - k && PagesStay(s, r.s)
    ensures r.s.procs == s.procs[pid := s.procs[pid].(sz := PGSIZE + k * PGSIZE)]
  {
    hide SysInv;
    hide VmInv;
    hide AllocFrom;
    hide Keeps;
    hide ProcsOk;
    hide UserView;
    SysFacts(s);
    SysProc(s, pid);
    var d, newsz := s.procs[pid].dir, PGSIZE + k * PGSIZE;
    assert PageRoundUp(PGSIZE) == 1 && PageRoundUp(newsz) == 1 + k && PGSIZE < newsz <= USERTOP < UINT;
    NothingPast(s.vm, d, PGSIZE);
    var got := AllocFrom(s.vm, d, 1, PGSIZE, newsz);
    AllocKeeps(s.vm, Stacked(s.kstacks), d, 1, PGSIZE, newsz, got);
    AllocFrames(s.vm, d, 1, PGSIZE, newsz, got);
    assert r == Next(SetSize(s, pid, got.vm, newsz), 0);
    GrowRefines(s, pid, k * PGSIZE, r);
    StepSound(s, Sbrk(pid, k * PGSIZE), r);
    forall p | p in s.procs && Mapped(s, p, 0) ensures OneStays(s, r.s, p) {
      if s.procs[p].dir != d { OtherPage(s.vm, got.vm, d, s.procs[p].dir); }
    }
  }

  lemma OtherPage(vm: Vm, vm1: Vm, d: nat, c: nat)
    requires Keeps(vm, vm1, {d}) && c in vm.dirs && c != d && 0 in vm.dirs[c].ptes
    ensures c in vm1.dirs && 0 in vm1.dirs[c].ptes && vm1.dirs[c].ptes[0].frame == vm.dirs[c].ptes[0].frame
  {
    hide UserView;
  }

  // ---------------------------------------------------------------- using up the memory

  lemma StillSharing(s: Sys, s1: Sys)
    requires Sharing(s) && SysInv(s1) && PagesStay(s, s1) && INITPID in s1.procs && CHILD in s1.procs
    requires !s1.procs[INITPID].zombie && !s1.procs[CHILD].zombie && s1.procs[INITPID].sz == PGSIZE
    ensures Sharing(s1)
  {
    hide SysInv;
    assert OneStays(s, s1, INITPID) && OneStays(s, s1, CHILD);
  }

  // The step does not meet a fault, so it is part of a run.
  lemma RunBefore(s: Sys, op: Op, r: StepResult, ss: seq<Sys>, ops: seq<Op>, rets: seq<int>)
    requires SysWf(s) && r == Step(s, op, Cow) && r.Next? && !op.Store? && !op.Fault?
    requires IsRun(ss, ops, rets, Cow) && ss[0] == r.s
    ensures |ss| == |ops| + 1 && IsRun([s] + ss, [op] + ops, [r.ret] + rets, Cow) && ([s] + ss)[0] == s && ([s] + ss)[|ss|] == ss[|ss| - 1]
  {
    hide Step;
    hide SysWf;
    var ss1, ops1, rets1 := [s] + ss, [op] + ops, [r.ret] + rets;
    forall i | 0 <= i < |ops1|
      ensures SysWf(ss1[i]) && !Starved(ss1[i], ops1[i]) && Step(ss1[i], ops1[i], Cow) == Next(ss1[i + 1], rets1[i])
    {
      if i > 0 { assert ss1[i] == ss[i - 1] && ss1[i + 1] == ss[i] && ops1[i] == ops[i - 1] && rets1[i] == rets[i - 1]; }
    }
  }

  lemma NoOps(s: Sys)
    ensures IsRun([s], [], [], Cow)
  {
  }

  /** init and the child share page 0 and no frame is free. */
  ghost predicate UsedUp(s: Sys) {
    && SysInv(s) && SysWf(s) && s.vm.km.freelist == []
    && INITPID in s.procs && CHILD in s.procs && !s.procs[CHILD].zombie && OneFrame(s, INITPID, CHILD)
  }

  // init takes the last frames.
  lemma TakeLast(s: Sys) returns (ss: seq<Sys>, ops: seq<Op>, rets: seq<int>)
    requires Sharing(s) && |s.vm.km.freelist| < USERPAGES
    ensures IsRun(ss, ops, rets, Cow) && ss[0] == s && UsedUp(ss[|ops|])
  {
    hide SysInv;
    hide Step;
    hide IsRun;
    var k := |s.vm.km.freelist|;
    if k == 0 {
      ss, ops, rets := [s], [], [];
      NoOps(s);
    } else {
      var op := Sbrk(INITPID, k * PGSIZE);
      var r := Step(s, op, Cow);
      GrowBy(s, INITPID, k, r);
      assert OneStays(s, r.s, INITPID) && OneStays(s, r.s, CHILD);
      NoOps(r.s);
      RunBefore(s, op, r, [r.s], [], []);
      ss, ops, rets := [s] + [r.s], [op] + [], [r.ret] + [];
    }
  }

  // A new child of init takes all the pages it can.
  lemma ForkAndGrow(s: Sys) returns (r: StepResult, k: nat, q: StepResult)
    requires Sharing(s) && |s.vm.km.freelist| >= USERPAGES && |s.procs| < NPROC
    ensures k == (if |s.vm.km.freelist| - FORK_FRAMES < USERPAGES - 1 then |s.vm.km.freelist| - FORK_FRAMES else USERPAGES - 1)
    ensures SysWf(s) && r == Step(s, Fork(INITPID), Cow) && r.Next? && SysWf(r.s)
    ensures q == Step(r.s, Sbrk(s.nextPid, k * PGSIZE), Cow) && q.Next? && Sharing(q.s)
    ensures |q.s.vm.km.freelist| == |s.vm.km.freelist| - FORK_FRAMES - k && |q.s.procs| == |s.procs| + 1
  {
    hide SysInv;
    hide Step;
    r := Step(s, Fork(INITPID), Cow);
    ForkOne(s, INITPID, r);
    StillSharing(s, r.s);
    k := if |r.s.vm.km.freelist| < USERPAGES - 1 then |r.s.vm.km.freelist| else USERPAGES - 1;
    q := Step(r.s, Sbrk(s.nextPid, k * PGSIZE), Cow);
    GrowBy(r.s, s.nextPid, k, q);
    StillSharing(r.s, q.s);
    assert s.procs.Keys + {s.nextPid} == r.s.procs.Keys == q.s.procs.Keys;
  }

  /** From any state in which init and the child share a page, until the memory is used up. */
  lemma {:induction false} UseUp(s: Sys) returns (ss: seq<Sys>, ops: seq<Op>, rets: seq<int>)
    requires Sharing(s) && 173 * |s.procs| + |s.vm.km.freelist| <= 173 * 2 + NFRAMES
    ensures IsRun(ss, ops, rets, Cow) && ss[0] == s && UsedUp(ss[|ops|])
    decreases |s.vm.km.freelist|
  {
    hide Sharing;
    hide UsedUp;
    hide Step;
    hide IsRun;
    hide SysWf;
    if |s.vm.km.freelist| < USERPAGES {
      ss, ops, rets := TakeLast(s);
    } else {
      var r, k, q := ForkAndGrow(s);
      var ss1, ops1, rets1 := UseUp(q.s);
      RunBefore(r.s, Sbrk(s.nextPid, k * PGSIZE), q, ss1, ops1, rets1);
      RunBefore(s, Fork(INITPID), r, [r.s] + ss1, [Sbrk(s.nextPid, k * PGSIZE)] + ops1, [q.ret] + rets1);
      ss := [s] + ([r.s] + ss1);
      ops := [Fork(INITPID)] + ([Sbrk(s.nextPid, k * PGSIZE)] + ops1);
      rets := [r.ret] + ([q.ret] + rets1);
    }
  }

  // ---------------------------------------------------------------- the fault

  lemma TwoHolders(vm: Vm, ext: Holds, c: nat, d: nat)
    requires VmInv(vm, ext) && vm.Wf() && c in vm.dirs && d in vm.dirs && c != d
    requires 0 in vm.dirs[c].ptes && 0 in vm.dirs[d].ptes && vm.dirs[c].ptes[0].frame == vm.dirs[d].ptes[0].frame
    ensures !vm.dirs[d].ptes[0].w && vm.dirs[d].ptes[0].frame < NFRAMES && vm.km.refcnt[vm.dirs[d].ptes[0].frame] > 1
  {
    hide DirHolds;
    hide DirsOk;
    var h, f := AllHolds(vm, ext), vm.dirs[d].ptes[0].frame;
    UserFramesManaged(vm, ext, c, 0);
    UserFramesManaged(vm, ext, d, 0);
    assert {UserPage(c, 0), UserPage(d, 0)} <= Refs(h, f);
    SubsetSize({UserPage(c, 0), UserPage(d, 0)}, Refs(h, f));
  }

  lemma {:induction false} SubsetSize(a: set<Holder>, b: set<Holder>)
    requires a <= b
    ensures |a| <= |b|
  {
    if a != {} {
      var x :| x in a;
      SubsetSize(a - {x}, b - {x});
    }
  }

  lemma UsedUpStarves(s: Sys, b: Byte)
    requires UsedUp(s)
    ensures Starved(s, Store(CHILD, 0, b)) && !UserPte(s, CHILD, 0).w
  {
    hide VmInv;
    TwoHolders(s.vm, Stacked(s.kstacks), s.procs[INITPID].dir, s.procs[CHILD].dir);
  }

  /** The child's store is then reported done, but its page is physical page 0, and the
      accounting is wrong. */
  lemma StoreBreaks(s: Sys, b: Byte, r: StepResult)
    requires UsedUp(s) && r == Step(s, Store(CHILD, 0, b), Cow)
    ensures r.Next? && r.ret == 0 && SysWf(r.s) && CHILD in r.s.procs && Mapped(r.s, CHILD, 0)
    ensures UserPte(r.s, CHILD, 0).frame == 0 && !SysInv(r.s)
  {
    hide VmInv;
    UsedUpStarves(s, b);
    SysProc(s, CHILD);
    SysFacts(s);
    var d := s.procs[CHILD].dir;
    UserPteOk(s.vm, Stacked(s.kstacks), d, 0);
    InvCountSmall(s.vm, Stacked(s.kstacks), d, 0);
    if SysInv(r.s) {
      UserFramesManaged(r.s.vm, Stacked(r.s.kstacks), d, 0);
      assert false;
    }
  }

  /** Every machine that has 14 frames more than it needs to start can get there: there is a run
      from its first state, without a starved fault, to one in which a store by the first child
      breaks the accounting. */
  lemma StarvationReached(lo: nat, mem: seq<Page>, dataPage: nat, image: seq<Byte>, b: Byte)
    returns (ss: seq<Sys>, ops: seq<Op>, rets: seq<int>)
    requires 0 < lo <= NFRAMES && |mem| == NFRAMES && KmapsOk(dataPage) && |image| < PGSIZE
    requires NFRAMES - lo >= BOOT_FRAMES + FORK_FRAMES
    ensures Boot(lo, mem, dataPage, image).Up? && IsRun(ss, ops, rets, Cow) && ss[0] == Boot(lo, mem, dataPage, image).s
    ensures var last := ss[|ops|];
      && SysWf(last) && SysInv(last) && Starved(last, Store(CHILD, 0, b))
      && var r := Step(last, Store(CHILD, 0, b), Cow); r.Next? && r.ret == 0 && !SysInv(r.s)
  {
    hide SysInv;
    hide Boot;
    hide Step;
    hide View;
    hide Whole;
    hide IsRun;
    hide Starved;
    BootExact(lo, mem, dataPage, image);
    BootInv(lo, mem, dataPage, image);
    var s := Boot(lo, mem, dataPage, image).s;
    FirstProc(s, image);
    var r := Step(s, Fork(INITPID), Cow);
    ForkOne(s, INITPID, r);
    BootPid(lo, mem, dataPage, image);
    assert r.s.procs.Keys == {INITPID, CHILD} && |r.s.procs.Keys| == 2;
    var ss1, ops1, rets1 := UseUp(r.s);
    RunBefore(s, Fork(INITPID), r, ss1, ops1, rets1);
    ss, ops, rets := [s] + ss1, [Fork(INITPID)] + ops1, [r.ret] + rets1;
    UsedUpStarves(ss[|ops|], b);
    StoreBreaks(ss[|ops|], b, Step(ss[|ops|], Store(CHILD, 0, b), Cow));
  }

  lemma BootPid(lo: nat, mem: seq<Page>, dataPage: nat, image: seq<Byte>)
    requires 0 < lo <= NFRAMES && |mem| == NFRAMES && KmapsOk(dataPage) && |image| < PGSIZE
    requires Boot(lo, mem, dataPage, image).Up?
    ensures Boot(lo, mem, dataPage, image).s.nextPid == CHILD
  {
    hide SetupKvm;
    hide KinitFrom;
    hide InitUvm;
  }

  lemma FirstProc(s: Sys, image: seq<Byte>)
    requires SysInv(s) && SysWf(s) && |image| < PGSIZE
    requires View(s) == map[INITPID := IProc(PGSIZE, map[0 := ImagePage(image)], 0, false)]
    ensures INITPID in s.procs && s.procs.Keys == {INITPID} && Mapped(s, INITPID, 0)
    ensures s.procs[INITPID].sz == PGSIZE && !s.procs[INITPID].zombie
  {
    hide SysInv;
    hide View;
    ViewOf(s);
    MappedIsVisible(s, INITPID, 0);
  }
}
