/** Processes over the copy-on-write virtual memory (P5_XV6_CoW_Fork/kernel/proc.c and vm.c):
    a step system whose steps are user loads, user stores (fault, then retry), fork, grow,
    shrink, exit and wait, and the proof that it shows every process exactly the bytes the
    eager copyuvm would. */
module CowSystem {
  import opened Kalloc
  import opened Vm
  import opened VmProofs

  const NPROC: nat := 64
  const INITPID: nat := 1

  datatype Proc = Proc(sz: nat, dir: nat, parent: nat, zombie: bool)

  // kstacks: kernel stacks by pid; pid 0 is the boot stack.
  datatype Sys = Sys(vm: Vm, procs: map<nat, Proc>, kstacks: map<nat, nat>, nextPid: nat)

  datatype Op =
    | Load(pid: nat, va: nat)
    | Store(pid: nat, va: nat, b: Byte)
    | Fault(pid: nat, va: nat)          // a write fault; the retry is a later step
    | Fork(pid: nat)
    | Sbrk(pid: nat, n: int)
    | Exit(pid: nat)
    | Wait(pid: nat, child: nat)

  // ret: the byte read, the child's pid, or the C return value; -1 when there is none.
  datatype StepResult = Next(s: Sys, ret: int) | Crash

  predicate IsInt(n: int) { -0x8000_0000 <= n <= 0x7fff_ffff }

  predicate SysWf(s: Sys) {
    && s.vm.Wf() && KmapsOk(s.vm.dataPage)
    && (forall p | p in s.procs :: s.procs[p].dir in s.vm.dirs && p in s.kstacks)
  }

  // The op is one that can happen: a live process at a user address.
  predicate Enabled(s: Sys, op: Op) {
    && op.pid in s.procs && !s.procs[op.pid].zombie
    && match op
       case Load(_, va) => va < USERTOP
       case Store(_, va, _) => va < USERTOP
       case Fault(_, va) => va < USERTOP
       case Fork(_) => true
       case Sbrk(_, n) => IsInt(n)
       case Exit(pid) => pid != INITPID
       case Wait(pid, c) => c in s.procs && c != pid && s.procs[c].zombie && s.procs[c].parent == pid
  }

  function UserPte(s: Sys, pid: nat, va: nat): Pte
    requires SysWf(s) && pid in s.procs && va / PGSIZE in s.vm.dirs[s.procs[pid].dir].ptes
  {
    s.vm.dirs[s.procs[pid].dir].ptes[va / PGSIZE]
  }

  predicate Mapped(s: Sys, pid: nat, va: nat)
    requires SysWf(s) && pid in s.procs
  {
    va / PGSIZE in s.vm.dirs[s.procs[pid].dir].ptes
  }

  function DoLoad(s: Sys, pid: nat, va: nat): StepResult
    requires SysWf(s) && pid in s.procs
  {
    if !Mapped(s, pid, va) || UserPte(s, pid, va).frame >= NFRAMES then Next(s, -1)
    else Next(s, s.vm.km.mem[UserPte(s, pid, va).frame][va % PGSIZE])
  }

  function DoFault(s: Sys, pid: nat, va: nat): (r: StepResult)
    requires SysWf(s) && pid in s.procs
    ensures r.Next? ==> SysWf(r.s) && r.s.procs == s.procs
  {
    match PageFault(s.vm, s.procs[pid].dir, va / PGSIZE)
    case Ok(vm1) => Next(s.(vm := vm1), 0)
    case _ => Crash
  }

  // The store once the page is writable.
  function WriteByte(s: Sys, pid: nat, va: nat, b: Byte): StepResult
    requires SysWf(s) && pid in s.procs
  {
    if !Mapped(s, pid, va) || !UserPte(s, pid, va).w || UserPte(s, pid, va).frame >= NFRAMES then Next(s, -1)
    else
      var f := UserPte(s, pid, va).frame;
      Next(s.(vm := s.vm.(km := WritePage(s.vm.km, f, s.vm.km.mem[f][va % PGSIZE := b]))), 0)
  }

  /** A user store: a read-only page faults into pgfltintr and the store is retried. */
  function DoStore(s: Sys, pid: nat, va: nat, b: Byte): StepResult
    requires SysWf(s) && pid in s.procs
  {
    if !Mapped(s, pid, va) then Next(s, -1)
    else if UserPte(s, pid, va).w then WriteByte(s, pid, va, b)
    else match DoFault(s, pid, va)
      case Crash => Crash
      case Next(s1, _) => WriteByte(s1, pid, va, b)
  }

  // fork after the address space has been duplicated, or has not.
  function ForkFinish(s: Sys, pid: nat, stack: nat, dup: DirOutcome): StepResult
    requires pid in s.procs && (!dup.DirPanic? ==> dup.vm.Wf())
  {
    var child := s.nextPid;
    match dup
    case DirPanic => Crash
    case NoDir(vm1) =>
      (match Free(vm1.km, stack)
       case FreePanic => Crash
       case Freed(km2) => Next(Sys(vm1.(km := km2), s.procs, s.kstacks, child + 1), -1))
    case NewDir(vm1, d) =>
      Next(Sys(vm1, s.procs[child := Proc(s.procs[pid].sz, d, pid, false)],
               s.kstacks[child := stack], child + 1), child)
  }

  /** fork, with copyuvm or cowuvm. */
  function DoFork(s: Sys, pid: nat, policy: Policy): StepResult
    requires SysWf(s) && pid in s.procs
  {
    if |s.procs| >= NPROC then Next(s, -1)
    else
      match Alloc(s.vm.km)
      case OutOfMemory => Next(s.(nextPid := s.nextPid + 1), -1)
      case Allocated(km, stack) =>
        ForkFinish(s, pid, stack, DupUvm(s.vm.(km := km), s.procs[pid].dir, s.procs[pid].sz, policy))
  }

  function SetSize(s: Sys, pid: nat, vm1: Vm, sz: nat): Sys
    requires pid in s.procs
  {
    s.(vm := vm1, procs := s.procs[pid := s.procs[pid].(sz := sz)])
  }

  /** growproc.  Shrinking to exactly 0 drops the pages, reports failure and keeps sz. */
  function DoSbrk(s: Sys, pid: nat, n: int): StepResult
    requires SysWf(s) && pid in s.procs
  {
    var p := s.procs[pid];
    if n == 0 then Next(s, 0)
    else if n > 0 then
      match AllocUvm(s.vm, p.dir, p.sz, (p.sz + n) % UINT)
      case SizePanic => Crash
      case Size(vm1, sz) => if sz == 0 then Next(s.(vm := vm1), -1) else Next(SetSize(s, pid, vm1, sz), 0)
    else
      match DeallocUvm(s.vm, p.dir, p.sz, (p.sz + n) % UINT)
      case SizePanic => Crash
      case Size(vm1, sz) => if sz == 0 then Next(s.(vm := vm1), -1) else Next(SetSize(s, pid, vm1, sz), 0)
  }

  /** exit: become a zombie; children go to init.  The memory stays until wait. */
  function DoExit(s: Sys, pid: nat): StepResult
    requires pid in s.procs
  {
    Next(s.(procs := map q | q in s.procs ::
           if q == pid then s.procs[q].(zombie := true)
           else if s.procs[q].parent == pid then s.procs[q].(parent := INITPID)
           else s.procs[q]), 0)
  }

  /** wait reaping a zombie child: its kernel stack, then its address space. */
  function DoWait(s: Sys, child: nat): StepResult
    requires SysWf(s) && child in s.procs
  {
    match Free(s.vm.km, s.kstacks[child])
    case FreePanic => Crash
    case Freed(km1) =>
      match FreeVm(s.vm.(km := km1), s.procs[child].dir)
      case Ok(vm2) => Next(Sys(vm2, s.procs - {child}, s.kstacks - {child}, s.nextPid), child)
      case _ => Crash
  }

  function Step(s: Sys, op: Op, policy: Policy): StepResult
    requires SysWf(s)
  {
    if !Enabled(s, op) then Next(s, -1)
    else match op
      case Load(pid, va) => DoLoad(s, pid, va)
      case Store(pid, va, b) => DoStore(s, pid, va, b)
      case Fault(pid, va) => DoFault(s, pid, va)
      case Fork(pid) => DoFork(s, pid, policy)
      case Sbrk(pid, n) => DoSbrk(s, pid, n)
      case Exit(pid) => DoExit(s, pid)
      case Wait(_, child) => DoWait(s, child)
  }

  // ---------------------------------------------------------------- the ideal machine

  /** A process that owns private pages: what an address space means to its user. */
  datatype IProc = IProc(sz: nat, pages: map<nat, Page>, parent: nat, zombie: bool)
  type Ideal = map<nat, IProc>

  ghost predicate IEnabled(m: Ideal, op: Op) {
    && op.pid in m && !m[op.pid].zombie
    && match op
       case Load(_, va) => va < USERTOP
       case Store(_, va, _) => va < USERTOP
       case Fault(_, va) => va < USERTOP
       case Fork(_) => true
       case Sbrk(_, n) => IsInt(n)
       case Exit(pid) => pid != INITPID
       case Wait(pid, c) => c in m && c != pid && m[c].zombie && m[c].parent == pid
  }

  // The answers that depend on how much memory is left.
  predicate MemoryOp(op: Op) { op.Fork? || (op.Sbrk? && op.n > 0) }

  /** What the user is told, for every op whose answer does not depend on free memory. */
  ghost function IdealRet(m: Ideal, op: Op): int
    requires !MemoryOp(op)
  {
    if !IEnabled(m, op) then -1
    else match op
      case Load(pid, va) => if va / PGSIZE in m[pid].pages then m[pid].pages[va / PGSIZE][va % PGSIZE] else -1
      case Store(pid, va, _) => if va / PGSIZE in m[pid].pages then 0 else -1
      case Fault(_, _) => 0
      case Exit(_) => 0
      case Wait(_, c) => c
      case Sbrk(pid, n) =>
        if n == 0 then 0
        else
          var newsz := (m[pid].sz + n) % UINT;
          var got := if newsz >= m[pid].sz then m[pid].sz else newsz;
          if got == 0 then -1 else 0
      case Fork(_) => 0
  }

  ghost function IdealExit(m: Ideal, pid: nat): Ideal {
    map q | q in m ::
      if q == pid then m[q].(zombie := true)
      else if m[q].parent == pid then m[q].(parent := INITPID)
      else m[q]
  }

  /** The private-memory effect of an op; ret carries the answer of the memory ops. */
  ghost function IdealStep(m: Ideal, op: Op, ret: int): Ideal
  {
    if !IEnabled(m, op) then m
    else match op
      case Load(_, _) => m
      case Fault(_, _) => m
      case Store(pid, va, b) =>
        var v := va / PGSIZE;
        if v !in m[pid].pages then m
        else m[pid := m[pid].(pages := m[pid].pages[v := m[pid].pages[v][va % PGSIZE := b]])]
      case Fork(pid) =>
        if ret < 0 then m else m[ret := IProc(m[pid].sz, m[pid].pages, pid, false)]
      case Sbrk(pid, n) =>
        var p := m[pid];
        if n == 0 then m
        else if n > 0 then
          if ret < 0 then m
          else m[pid := p.(sz := p.sz + n, pages := GrowView(p.pages, PageRoundUp(p.sz), PageRoundUp(p.sz + n)))]
        else
          var newsz := (p.sz + n) % UINT;
          if newsz >= p.sz then m
          else m[pid := p.(sz := if newsz == 0 then p.sz else newsz,
                           pages := DropView(p.pages, PageRoundUp(newsz), PageRoundUp(p.sz)))]
      case Exit(pid) => IdealExit(m, pid)
      case Wait(_, c) => m - {c}
  }

  /** What a system state shows its processes. */
  ghost function View(s: Sys): Ideal
    requires SysWf(s)
  {
    map p | p in s.procs ::
      IProc(s.procs[p].sz, UserView(s.vm, s.procs[p].dir), s.procs[p].parent, s.procs[p].zombie)
  }

  // ---------------------------------------------------------------- the invariant

  ghost function Stacked(kstacks: map<nat, nat>): (h: Holds)
    ensures forall p :: KStack(p) in h <==> p in kstacks
    ensures forall p | p in kstacks :: h[KStack(p)] == kstacks[p]
    ensures Stacks(h)
  {
    map r | r in (set p | p in kstacks :: KStack(p)) :: kstacks[r.pid]
  }

  // Pages past the end of a process are not mapped.
  ghost predicate WithinSize(vm: Vm, d: nat, sz: nat)
    requires d in vm.dirs
  {
    forall v | v in vm.dirs[d].ptes && v < USERPAGES :: v < PageRoundUp(sz)
  }

  ghost predicate ProcOk(vm: Vm, p: Proc)
    requires p.dir in vm.dirs
  {
    p.sz <= USERTOP && 0 in vm.dirs[p.dir].tables && WithinSize(vm, p.dir, p.sz)
  }

  ghost predicate ProcsOk(vm: Vm, procs: map<nat, Proc>) {
    && (forall p | p in procs :: procs[p].dir in vm.dirs && ProcOk(vm, procs[p]))
    && (forall p, q | p in procs && q in procs && p != q :: procs[p].dir != procs[q].dir)
  }

  ghost predicate SysInv(s: Sys) {
    && SysWf(s)
    && VmInv(s.vm, Stacked(s.kstacks))
    && ProcsOk(s.vm, s.procs)
    && s.kstacks.Keys == s.procs.Keys + {0} && 0 !in s.procs
    && (forall p | p in s.procs :: p < s.nextPid) && 0 < s.nextPid
  }

  // ---------------------------------------------------------------- kernel stacks

  lemma AddStack(vm: Vm, ext: Holds, pid: nat, f: nat)
    requires VmInv(vm, ext) && vm.Wf() && KStack(pid) !in ext
    requires Alloc(vm.km).Allocated? && f == Alloc(vm.km).frame
    ensures VmInv(vm.(km := Alloc(vm.km).km), ext[KStack(pid) := f])
  {
    hide Acct;
    hide DirHolds;
    hide DirsOk;
    var h, t, vm1 := AllHolds(vm, ext), KStack(pid), vm.(km := Alloc(vm.km).km);
    assert t !in h by { StackNotHeld(vm.dirs, pid); }
    AllocFresh(vm.km, h);
    AllocAcct(vm.km, h, t);
    assert AllHolds(vm1, ext[t := f]) == h[t := f];
    UnsharedAfterKernelHold(vm, vm1, ext, t, f);
  }

  lemma StackNotHeld(dirs: map<nat, PageDir>, pid: nat)
    ensures KStack(pid) !in DirHolds(dirs)
  {
  }

  lemma AddStackView(vm: Vm)
    requires vm.Wf() && Alloc(vm.km).Allocated?
    ensures Keeps(vm, vm.(km := Alloc(vm.km).km), {})
  {
  }

  lemma DropStack(vm: Vm, ext: Holds, pid: nat, km1: Kmem)
    requires VmInv(vm, ext) && vm.Wf() && KStack(pid) in ext
    requires Free(vm.km, ext[KStack(pid)]) == Freed(km1)
    ensures VmInv(vm.(km := km1), ext - {KStack(pid)}) && Keeps(vm, vm.(km := km1), {})
  {
    hide Acct;
    hide DirHolds;
    hide WritableUnshared;
    hide Free;
    var h, t, vm1 := AllHolds(vm, ext), KStack(pid), vm.(km := km1);
    StackNotHeld(vm.dirs, pid);
    assert t in h && h[t] == ext[t];
    FreeAcct(vm.km, h, t);
    var h1 := h - {t};
    assert AllHolds(vm1, ext - {t}) == h1;
    PtesHeld(vm, ext);
    PtesHeld(vm1, ext - {t});
    UnsharedFewer(vm, vm1, h, h1);
    HeldViews(vm, vm1, h1);
  }

  lemma HeldViews(vm: Vm, vm1: Vm, h1: Holds)
    requires vm.Wf() && vm1.Wf() && vm1.dirs == vm.dirs && AllPtesHeld(vm, h1) && vm1.km.lo == vm.km.lo
    requires forall g | 0 <= g < NFRAMES && Refs(h1, g) != {} :: vm1.km.mem[g] == vm.km.mem[g]
    ensures Keeps(vm, vm1, {})
  {
    forall d, v | d in vm.dirs && v in vm.dirs[d].ptes && v < USERPAGES && vm.dirs[d].ptes[v].frame < NFRAMES
      ensures vm1.km.mem[vm.dirs[d].ptes[v].frame] == vm.km.mem[vm.dirs[d].ptes[v].frame]
    {
      assert UserPage(d, v) in Refs(h1, vm.dirs[d].ptes[v].frame);
    }
  }

  lemma StackFreed(vm: Vm, ext: Holds, pid: nat)
    requires VmInv(vm, ext) && vm.Wf() && KStack(pid) in ext
    ensures Free(vm.km, ext[KStack(pid)]).Freed?
  {
    hide Acct;
    hide DirHolds;
    hide Free;
    StackNotHeld(vm.dirs, pid);
    assert AllHolds(vm, ext)[KStack(pid)] == ext[KStack(pid)];
    FreeAcct(vm.km, AllHolds(vm, ext), KStack(pid));
  }

  // ---------------------------------------------------------------- duplicating an address space

  // What copyuvm and cowuvm both establish.
  ghost predicate Duplicated(vm: Vm, r: DirOutcome, ext: Holds, src: nat, sz: nat)
  {
    && !r.DirPanic? && vm.Wf() && r.vm.Wf() && src in vm.dirs
    && VmInv(r.vm, ext) && Keeps(vm, r.vm, {}) && r.vm.dataPage == vm.dataPage
    && (r.NewDir? ==>
          && r.dir !in vm.dirs && r.vm.dirs.Keys == vm.dirs.Keys + {r.dir} && 0 in r.vm.dirs[r.dir].tables
          && UserView(r.vm, r.dir) == CopyView(map[], UserView(vm, src), 0, PageRoundUp(sz)))
  }

  lemma DupJoin(vm: Vm, vm1: Vm, r: DirOutcome, ext: Holds, src: nat, d: nat, sz: nat)
    requires vm.Wf() && vm1.Wf() && src in vm.dirs && d !in vm.dirs && vm1.dirs.Keys == vm.dirs.Keys + {d}
    requires Keeps(vm, vm1, {}) && 0 in vm1.dirs[d].tables && NoUser(vm1, d) && vm1.dataPage == vm.dataPage
    requires DupOk(vm1, r, ext, src, d, 0, PageRoundUp(sz))
    ensures Duplicated(vm, r, ext, src, sz)
  {
    hide VmInv;
    assert UserView(vm1, d) == map[];
    assert UserView(vm1, src) == UserView(vm, src);
    KeepsDropped(vm, vm1, r.vm, d);
  }

  lemma KeepsDropped(vm: Vm, vm1: Vm, vm2: Vm, d: nat)
    requires Keeps(vm, vm1, {}) && Keeps(vm1, vm2, {d}) && d !in vm.dirs
    ensures Keeps(vm, vm2, {})
  {
    hide UserView;
  }

  /** Both ways of duplicating show the child exactly the parent's pages and change what
      nobody else sees.  They panic only when a page below sz is missing; the copy-on-write
      way fails only when setupkvm does. */
  lemma DupKeeps(vm: Vm, ext: Holds, src: nat, sz: nat, policy: Policy, r: DirOutcome)
    requires VmInv(vm, ext) && vm.Wf() && KmapsOk(vm.dataPage) && src in vm.dirs && sz <= USERTOP
    requires r == DupUvm(vm, src, sz, policy)
    ensures r.DirPanic? || Duplicated(vm, r, ext, src, sz)
    ensures r.DirPanic? ==> !Present(vm, src, 0, PageRoundUp(sz))
    ensures r.NewDir? ==> Present(vm, src, 0, PageRoundUp(sz))
    ensures policy.Cow? ==> (r.NoDir? <==> SetupKvm(vm).NoDir?)
  {
    hide VmInv;
    hide Keeps;
    hide DupOk;
    hide UserView;
    hide SetupFrom;
    var set1 := SetupKvm(vm);
    SetupKvmKeeps(vm, ext, set1);
    if set1.NewDir? {
      var vm1, d := set1.vm, set1.dir;
      SamePresent(vm, vm1, src, PageRoundUp(sz));
      if policy.Eager? {
        CopyKeeps(vm1, ext, src, d, 0, sz, r);
      } else {
        CowKeeps(vm1, ext, src, d, 0, sz, r);
      }
      if !r.DirPanic? { DupJoin(vm, vm1, r, ext, src, d, sz); }
    } else {
      NoDirDuplicated(vm, r, ext, src, sz);
    }
  }

  lemma NoDirDuplicated(vm: Vm, r: DirOutcome, ext: Holds, src: nat, sz: nat)
    requires r.NoDir? && vm.Wf() && r.vm.Wf() && src in vm.dirs
    requires VmInv(r.vm, ext) && Keeps(vm, r.vm, {}) && r.vm.dataPage == vm.dataPage
    ensures Duplicated(vm, r, ext, src, sz)
  {
  }

  lemma SamePresent(vm: Vm, vm1: Vm, src: nat, hi: nat)
    requires Keeps(vm, vm1, {}) && src in vm.dirs
    ensures src in vm1.dirs && (Present(vm1, src, 0, hi) <==> Present(vm, src, 0, hi))
  {
    hide UserView;
  }

  // ---------------------------------------------------------------- one step at a time

  /** What every step promises: the invariant, and the effect and answer of the ideal
      machine. */
  ghost predicate Refines(s: Sys, op: Op, r: StepResult)
    requires SysWf(s)
  {
    && r.Next? && SysInv(r.s)
    && View(r.s) == IdealStep(View(s), op, r.ret)
    && (!MemoryOp(op) ==> r.ret == IdealRet(View(s), op))
  }

  lemma EnabledAlike(s: Sys, op: Op)
    requires SysWf(s)
    ensures Enabled(s, op) <==> IEnabled(View(s), op)
  {
  }

  lemma MappedIsVisible(s: Sys, pid: nat, va: nat)
    requires SysInv(s) && pid in s.procs && va < USERTOP
    ensures Mapped(s, pid, va) <==> va / PGSIZE in View(s)[pid].pages
    ensures Mapped(s, pid, va) ==>
              UserPte(s, pid, va).frame < NFRAMES
              && View(s)[pid].pages[va / PGSIZE] == s.vm.km.mem[UserPte(s, pid, va).frame]
  {
    hide VmInv;
    if Mapped(s, pid, va) {
      UserPteOk(s.vm, Stacked(s.kstacks), s.procs[pid].dir, va / PGSIZE);
    }
  }

  lemma LoadRefines(s: Sys, pid: nat, va: nat)
    requires SysInv(s) && Enabled(s, Load(pid, va))
    ensures Refines(s, Load(pid, va), DoLoad(s, pid, va))
  {
    hide SysInv;
    hide View;
    InvWf(s);
    EnabledAlike(s, Load(pid, va));
    MappedIsVisible(s, pid, va);
  }

  lemma InvWf(s: Sys)
    requires SysInv(s)
    ensures SysWf(s)
  {
  }

  // A new virtual memory that shows every process what the old one did.
  lemma SameViewKeepsAll(s: Sys, vm1: Vm, s1: Sys)
    requires SysInv(s) && vm1.Wf() && VmInv(vm1, Stacked(s.kstacks)) && SameViews(s.vm, vm1) && s1 == s.(vm := vm1)
    ensures SysInv(s1) && View(s1) == View(s)
  {
    hide VmInv;
    hide UserView;
  }

  lemma FaultRefines(s: Sys, pid: nat, va: nat)
    requires SysInv(s) && Enabled(s, Fault(pid, va)) && !Starved(s, Fault(pid, va))
    ensures Refines(s, Fault(pid, va), DoFault(s, pid, va))
    ensures Mapped(s, pid, va) ==>
              var s1 := DoFault(s, pid, va).s; SysWf(s1) && Mapped(s1, pid, va) && UserPte(s1, pid, va).w
  {
    hide VmInv;
    hide UserView;
    hide PageFault;
    var d, v := s.procs[pid].dir, va / PGSIZE;
    var r := PageFault(s.vm, d, v);
    FaultKeeps(s.vm, Stacked(s.kstacks), d, v, r);
    SameViewKeepsAll(s, r.vm, s.(vm := r.vm));
    EnabledAlike(s, Fault(pid, va));
  }

  /** The op's page fault needs a copy and no frame is free. */
  ghost predicate Starved(s: Sys, op: Op)
    requires SysWf(s)
  {
    (op.Store? || op.Fault?) && Enabled(s, op) && FaultStarved(s.vm, s.procs[op.pid].dir, op.va / PGSIZE)
  }

  // Writing the one frame behind a writable page changes that page of that process only.
  lemma WriteView(vm: Vm, ext: Holds, d: nat, v: nat, p: Page, vm1: Vm)
    requires VmInv(vm, ext) && vm.Wf() && d in vm.dirs && v < USERPAGES && v in vm.dirs[d].ptes && vm.dirs[d].ptes[v].w
    requires vm.dirs[d].ptes[v].frame < NFRAMES && vm1 == vm.(km := WritePage(vm.km, vm.dirs[d].ptes[v].frame, p))
    ensures VmInv(vm1, ext)
    ensures forall c | c in vm.dirs && c != d :: UserView(vm1, c) == UserView(vm, c)
    ensures v in UserView(vm, d) && UserView(vm1, d) == UserView(vm, d)[v := p]
  {
    hide Acct;
    hide DirsOk;
    var f := vm.dirs[d].ptes[v].frame;
    WriteAcct(vm.km, AllHolds(vm, ext), f, p);
    WriteApart(vm, ext, d, v);
    WriteOnly(vm, d, v, p, vm1);
  }

  ghost predicate Apart(vm: Vm, d: nat, v: nat, f: nat) {
    forall c, x | c in vm.dirs && x in vm.dirs[c].ptes && x < USERPAGES && (c != d || x != v) :: vm.dirs[c].ptes[x].frame != f
  }

  lemma WriteApart(vm: Vm, ext: Holds, d: nat, v: nat)
    requires VmInv(vm, ext) && vm.Wf() && d in vm.dirs && v < USERPAGES && v in vm.dirs[d].ptes && vm.dirs[d].ptes[v].w
    ensures Apart(vm, d, v, vm.dirs[d].ptes[v].frame)
  {
    hide Acct;
    var f := vm.dirs[d].ptes[v].frame;
    assert Refs(AllHolds(vm, ext), f) == {UserPage(d, v)};
    forall c, x | c in vm.dirs && x in vm.dirs[c].ptes && x < USERPAGES && (c != d || x != v)
      ensures vm.dirs[c].ptes[x].frame != f
    {
      UserFramesManaged(vm, ext, c, x);
    }
  }

  lemma WriteOnly(vm: Vm, d: nat, v: nat, p: Page, vm1: Vm)
    requires vm.Wf() && d in vm.dirs && v < USERPAGES && v in vm.dirs[d].ptes
    requires vm.dirs[d].ptes[v].frame < NFRAMES && Apart(vm, d, v, vm.dirs[d].ptes[v].frame)
    requires vm1 == vm.(km := WritePage(vm.km, vm.dirs[d].ptes[v].frame, p))
    ensures forall c | c in vm.dirs && c != d :: UserView(vm1, c) == UserView(vm, c)
    ensures v in UserView(vm, d) && UserView(vm1, d) == UserView(vm, d)[v := p]
  {
  }

  lemma WriteByteRefines(s: Sys, pid: nat, va: nat, b: Byte)
    requires SysInv(s) && Enabled(s, Store(pid, va, b)) && Mapped(s, pid, va) && UserPte(s, pid, va).w
    ensures Refines(s, Store(pid, va, b), WriteByte(s, pid, va, b))
  {
    hide SysInv;
    hide View;
    hide VmInv;
    hide UserView;
    InvWf(s);
    var v, f := va / PGSIZE, UserPte(s, pid, va).frame;
    MappedIsVisible(s, pid, va);
    var p := s.vm.km.mem[f][va % PGSIZE := b];
    var s1 := s.(vm := s.vm.(km := WritePage(s.vm.km, f, p)));
    WriteSys(s, pid, va, p, s1);
    EnabledAlike(s, Store(pid, va, b));
  }

  lemma WriteSys(s: Sys, pid: nat, va: nat, p: Page, s1: Sys)
    requires SysInv(s) && pid in s.procs && va < USERTOP && Mapped(s, pid, va) && UserPte(s, pid, va).w
    requires UserPte(s, pid, va).frame < NFRAMES
    requires s1 == s.(vm := s.vm.(km := WritePage(s.vm.km, UserPte(s, pid, va).frame, p)))
    ensures SysInv(s1)
    ensures View(s1) == View(s)[pid := View(s)[pid].(pages := View(s)[pid].pages[va / PGSIZE := p])]
  {
    hide VmInv;
    hide UserView;
    WriteView(s.vm, Stacked(s.kstacks), s.procs[pid].dir, va / PGSIZE, p, s1.vm);
    OneProcChanged(s, s1, pid, View(s)[pid].(pages := View(s)[pid].pages[va / PGSIZE := p]));
  }

  // If only pid's own view changes, the ideal state changes at pid only.
  lemma OneProcChanged(s: Sys, s1: Sys, pid: nat, p: IProc)
    requires SysWf(s) && SysWf(s1) && pid in s.procs && s1.procs.Keys == s.procs.Keys
    requires View(s1)[pid] == p
    requires forall q | q in s.procs && q != pid ::
               s1.procs[q] == s.procs[q] && UserView(s1.vm, s1.procs[q].dir) == UserView(s.vm, s.procs[q].dir)
    ensures View(s1) == View(s)[pid := p]
  {
    hide UserView;
  }

  lemma StoreRefines(s: Sys, pid: nat, va: nat, b: Byte)
    requires SysInv(s) && Enabled(s, Store(pid, va, b)) && !Starved(s, Store(pid, va, b))
    ensures Refines(s, Store(pid, va, b), DoStore(s, pid, va, b))
  {
    hide SysInv;
    hide View;
    hide WriteByte;
    hide DoFault;
    InvWf(s);
    MappedIsVisible(s, pid, va);
    EnabledAlike(s, Store(pid, va, b));
    if Mapped(s, pid, va) {
      if UserPte(s, pid, va).w {
        WriteByteRefines(s, pid, va, b);
      } else {
        FaultRefines(s, pid, va);
        var s1 := DoFault(s, pid, va).s;
        EnabledAlike(s, Fault(pid, va));
        EnabledAlike(s1, Store(pid, va, b));
        assert View(s1) == View(s);
        WriteByteRefines(s1, pid, va, b);
      }
    }
  }

  // ---------------------------------------------------------------- fork

  lemma KeepsProcsOk(vm: Vm, vm1: Vm, procs: map<nat, Proc>)
    requires Keeps(vm, vm1, {}) && ProcsOk(vm, procs)
    ensures ProcsOk(vm1, procs)
  {
    hide UserView;
  }

  // The procs of s, over memory that shows what s showed.
  lemma KeepsView(s: Sys, s1: Sys)
    requires SysWf(s) && SysWf(s1) && Keeps(s.vm, s1.vm, {}) && s1.procs == s.procs
    ensures View(s1) == View(s)
  {
    hide UserView;
    assert forall p | p in s.procs :: UserView(s1.vm, s.procs[p].dir) == UserView(s.vm, s.procs[p].dir);
  }

  lemma KeepsAllProcs(s: Sys, vm1: Vm, s1: Sys, ext: Holds)
    requires SysInv(s) && VmInv(vm1, ext) && Keeps(s.vm, vm1, {}) && KmapsOk(vm1.dataPage) && s1.vm == vm1
    requires s1.procs == s.procs && s1.kstacks == s.kstacks && s1.nextPid >= s.nextPid
    requires ext == Stacked(s.kstacks)
    ensures SysInv(s1) && View(s1) == View(s)
  {
    hide VmInv;
    hide UserView;
    hide View;
    KeepsProcsOk(s.vm, vm1, s.procs);
    KeepsView(s, s1);
  }

  // The state after a fork that succeeded.
  ghost predicate Forked(s: Sys, pid: nat, vm1: Vm, d: nat, stack: nat, s1: Sys)
    requires pid in s.procs
  {
    s1 == Sys(vm1, s.procs[s.nextPid := Proc(s.procs[pid].sz, d, pid, false)], s.kstacks[s.nextPid := stack], s.nextPid + 1)
  }

  lemma ProcsOkAdd(vm: Vm, procs: map<nat, Proc>, child: nat, p: Proc)
    requires ProcsOk(vm, procs) && p.dir in vm.dirs && ProcOk(vm, p)
    requires forall q | q in procs :: procs[q].dir != p.dir
    ensures ProcsOk(vm, procs[child := p])
  {
    hide WithinSize;
  }

  lemma ChildWithin(vm: Vm, ext: Holds, d: nat, m: map<nat, Page>, sz: nat)
    requires VmInv(vm, ext) && vm.Wf() && d in vm.dirs && UserView(vm, d) == CopyView(map[], m, 0, PageRoundUp(sz))
    ensures WithinSize(vm, d, sz)
  {
    hide VmInv;
    forall v | v in vm.dirs[d].ptes && v < USERPAGES ensures v < PageRoundUp(sz) {
      UserPteOk(vm, ext, d, v);
      assert v in UserView(vm, d);
    }
  }

  lemma StackedAdd(kstacks: map<nat, nat>, pid: nat, f: nat)
    ensures Stacked(kstacks[pid := f]) == Stacked(kstacks)[KStack(pid) := f]
  {
  }

  lemma ForkedInv(s: Sys, pid: nat, vm0: Vm, r: DirOutcome, stack: nat, s1: Sys)
    requires SysInv(s) && pid in s.procs && Keeps(s.vm, vm0, {}) && vm0.dirs == s.vm.dirs
    requires r.NewDir? && Duplicated(vm0, r, Stacked(s.kstacks)[KStack(s.nextPid) := stack], s.procs[pid].dir, s.procs[pid].sz)
    requires KmapsOk(r.vm.dataPage) && Forked(s, pid, r.vm, r.dir, stack, s1)
    ensures SysInv(s1)
  {
    hide VmInv;
    hide UserView;
    hide WithinSize;
    hide Keeps;
    hide Stacked;
    hide ProcsOk;
    StackedAdd(s.kstacks, s.nextPid, stack);
    var d, sz := r.dir, s.procs[pid].sz;
    ProcFacts(s.vm, s.procs, pid);
    DirFresh(s.vm, s.procs, d);
    ChildWithin(r.vm, Stacked(s1.kstacks), d, UserView(vm0, s.procs[pid].dir), sz);
    KeepsTrans(s.vm, vm0, r.vm, {});
    KeepsProcsOk(s.vm, r.vm, s.procs);
    ProcsOkAdd(r.vm, s.procs, s.nextPid, Proc(sz, d, pid, false));
  }

  lemma ProcFacts(vm: Vm, procs: map<nat, Proc>, pid: nat)
    requires ProcsOk(vm, procs) && pid in procs
    ensures procs[pid].dir in vm.dirs && ProcOk(vm, procs[pid])
  {
  }

  lemma DirFresh(vm: Vm, procs: map<nat, Proc>, d: nat)
    requires ProcsOk(vm, procs) && d !in vm.dirs
    ensures forall p | p in procs :: procs[p].dir != d
  {
  }

  lemma CopyAll(m: map<nat, Page>, hi: nat)
    requires forall v | v in m :: v < hi
    ensures CopyView(map[], m, 0, hi) == m
  {
  }

  lemma ViewBelow(s: Sys, pid: nat)
    requires SysInv(s) && pid in s.procs
    ensures forall v | v in UserView(s.vm, s.procs[pid].dir) :: v < PageRoundUp(s.procs[pid].sz)
  {
    hide VmInv;
  }

  lemma ForkedView(s: Sys, pid: nat, vm0: Vm, r: DirOutcome, ext: Holds, stack: nat, s1: Sys)
    requires SysInv(s) && pid in s.procs && Keeps(s.vm, vm0, {}) && vm0.dirs == s.vm.dirs
    requires r.NewDir? && Duplicated(vm0, r, ext, s.procs[pid].dir, s.procs[pid].sz)
    requires SysWf(s1) && Forked(s, pid, r.vm, r.dir, stack, s1)
    ensures View(s1) == View(s)[s.nextPid := IProc(s.procs[pid].sz, UserView(s.vm, s.procs[pid].dir), pid, false)]
  {
    var src, hi := s.procs[pid].dir, PageRoundUp(s.procs[pid].sz);
    var m := UserView(s.vm, src);
    ViewBelow(s, pid);
    CopyAll(m, hi);
    ViewAdd(s, s1, vm0, s.nextPid, Proc(s.procs[pid].sz, r.dir, pid, false), m) by {
      assert UserView(vm0, src) == m;
    }
  }

  lemma ViewAdd(s: Sys, s1: Sys, vm0: Vm, child: nat, p: Proc, m: map<nat, Page>)
    requires SysWf(s) && SysWf(s1) && Keeps(s.vm, vm0, {}) && Keeps(vm0, s1.vm, {}) && child !in s.procs
    requires p.dir in s1.vm.dirs && s1.procs == s.procs[child := p] && UserView(s1.vm, p.dir) == m
    ensures View(s1) == View(s)[child := IProc(p.sz, m, p.parent, p.zombie)]
  {
    hide UserView;
    KeepsTrans(s.vm, vm0, s1.vm, {});
    assert forall q | q in s.procs :: UserView(s1.vm, s.procs[q].dir) == UserView(s.vm, s.procs[q].dir);
  }

  lemma SysFacts(s: Sys)
    requires SysInv(s)
    ensures SysWf(s) && VmInv(s.vm, Stacked(s.kstacks)) && KStack(s.nextPid) !in Stacked(s.kstacks)
    ensures s.nextPid !in s.procs && ProcsOk(s.vm, s.procs) && 0 < s.nextPid
  {
  }

  // setupkvm or a copy failed: the kernel stack is given back.
  lemma ForkNoDir(s: Sys, pid: nat, vm0: Vm, dup: DirOutcome, ext1: Holds, stack: nat, km2: Kmem, s1: Sys)
    requires SysInv(s) && pid in s.procs && Keeps(s.vm, vm0, {}) && s.procs[pid].dir in vm0.dirs
    requires ext1 == Stacked(s.kstacks)[KStack(s.nextPid) := stack]
    requires dup.NoDir? && Duplicated(vm0, dup, ext1, s.procs[pid].dir, s.procs[pid].sz) && KmapsOk(vm0.dataPage)
    requires dup.vm.Wf() && Free(dup.vm.km, stack) == Freed(km2)
    requires s1 == Sys(dup.vm.(km := km2), s.procs, s.kstacks, s.nextPid + 1)
    ensures SysInv(s1) && View(s1) == View(s)
  {
    hide SysInv;
    hide VmInv;
    hide Keeps;
    hide View;
    hide Duplicated;
    hide Free;
    SysFacts(s);
    DupFacts(vm0, dup, ext1, s.procs[pid].dir, s.procs[pid].sz);
    DropStack(dup.vm, ext1, s.nextPid, km2);
    assert ext1 - {KStack(s.nextPid)} == Stacked(s.kstacks);
    KeepsTrans(s.vm, vm0, dup.vm, {});
    KeepsTrans(s.vm, dup.vm, s1.vm, {});
    KeepsAllProcs(s, s1.vm, s1, Stacked(s.kstacks));
  }

  // What kalloc of the kernel stack leaves.
  lemma ForkStack(s: Sys, stack: nat, vm0: Vm)
    requires SysInv(s) && Alloc(s.vm.km).Allocated? && stack == Alloc(s.vm.km).frame
    requires vm0 == s.vm.(km := Alloc(s.vm.km).km)
    ensures VmInv(vm0, Stacked(s.kstacks)[KStack(s.nextPid) := stack]) && Keeps(s.vm, vm0, {})
  {
    hide SysInv;
    hide VmInv;
    SysFacts(s);
    AddStack(s.vm, Stacked(s.kstacks), s.nextPid, stack);
    AddStackView(s.vm);
  }

  lemma ForkFinishRefines(s: Sys, pid: nat, vm0: Vm, stack: nat, ext1: Holds, dup: DirOutcome, r: StepResult)
    requires SysInv(s) && Enabled(s, Fork(pid)) && Keeps(s.vm, vm0, {}) && vm0.dirs == s.vm.dirs && KmapsOk(vm0.dataPage)
    requires ext1 == Stacked(s.kstacks)[KStack(s.nextPid) := stack]
    requires Duplicated(vm0, dup, ext1, s.procs[pid].dir, s.procs[pid].sz) && dup.vm.Wf()
    requires r == ForkFinish(s, pid, stack, dup)
    ensures Refines(s, Fork(pid), r) && (r.ret >= 0 ==> r.ret == s.nextPid)
  {
    hide SysInv;
    hide VmInv;
    hide Duplicated;
    hide Keeps;
    hide UserView;
    hide Free;
    hide View;
    hide ProcsOk;
    SysFacts(s);
    EnabledAlike(s, Fork(pid));
    ViewOf(s);
    var src, sz := s.procs[pid].dir, s.procs[pid].sz;
    DupFacts(vm0, dup, ext1, src, sz);
    if dup.NoDir? {
      StackFreed(dup.vm, ext1, s.nextPid);
      ForkNoDir(s, pid, vm0, dup, ext1, stack, Free(dup.vm.km, stack).km, r.s);
    } else {
      ForkNewDir(s, pid, vm0, stack, ext1, dup, r.s);
    }
  }

  lemma ForkNewDir(s: Sys, pid: nat, vm0: Vm, stack: nat, ext1: Holds, dup: DirOutcome, s1: Sys)
    requires SysInv(s) && pid in s.procs && s.procs[pid].dir in s.vm.dirs && SysWf(s)
    requires Keeps(s.vm, vm0, {}) && vm0.dirs == s.vm.dirs && KmapsOk(vm0.dataPage)
    requires ext1 == Stacked(s.kstacks)[KStack(s.nextPid) := stack]
    requires dup.NewDir? && Duplicated(vm0, dup, ext1, s.procs[pid].dir, s.procs[pid].sz)
    requires Forked(s, pid, dup.vm, dup.dir, stack, s1)
    ensures SysInv(s1) && SysWf(s1)
    ensures View(s1) == View(s)[s.nextPid := IProc(s.procs[pid].sz, View(s)[pid].pages, pid, false)]
  {
    hide SysInv;
    hide VmInv;
    hide Duplicated;
    hide Keeps;
    hide UserView;
    hide View;
    DupFacts(vm0, dup, ext1, s.procs[pid].dir, s.procs[pid].sz);
    ForkedInv(s, pid, vm0, dup, stack, s1);
    SysFacts(s1);
    ForkedView(s, pid, vm0, dup, ext1, stack, s1);
    ViewOf(s);
  }

  /** fork: the child sees exactly what the parent sees, under either policy; a failed fork
      changes nothing.  It crashes only when a page of the parent below sz is missing. */
  lemma ForkRefines(s: Sys, pid: nat, policy: Policy, r: StepResult)
    requires SysInv(s) && Enabled(s, Fork(pid)) && r == DoFork(s, pid, policy)
    ensures r.Crash? || Refines(s, Fork(pid), r)
    ensures r.Crash? ==> !Present(s.vm, s.procs[pid].dir, 0, PageRoundUp(s.procs[pid].sz))
    ensures r.Next? && r.ret >= 0 ==> r.ret == s.nextPid
  {
    hide SysInv;
    hide VmInv;
    hide Keeps;
    hide DupUvm;
    hide Alloc;
    hide View;
    hide ProcsOk;
    hide ForkFinish;
    SysFacts(s);
    EnabledAlike(s, Fork(pid));
    if |s.procs| >= NPROC {
    } else if Alloc(s.vm.km).OutOfMemory? {
      KeepsNone(s.vm);
      KeepsAllProcs(s, s.vm, r.s, Stacked(s.kstacks));
    } else {
      var stack, vm0 := Alloc(s.vm.km).frame, s.vm.(km := Alloc(s.vm.km).km);
      ForkStack(s, stack, vm0);
      var ext1 := Stacked(s.kstacks)[KStack(s.nextPid) := stack];
      var src, sz := s.procs[pid].dir, s.procs[pid].sz;
      ProcFacts(s.vm, s.procs, pid);
      var dup := DupUvm(vm0, src, sz, policy);
      DupKeeps(vm0, ext1, src, sz, policy, dup);
      if dup.DirPanic? {
        ForkFinishPanics(s, pid, stack, dup);
      } else {
        ForkFinishRefines(s, pid, vm0, stack, ext1, dup, r);
      }
    }
  }

  lemma ForkFinishPanics(s: Sys, pid: nat, stack: nat, dup: DirOutcome)
    requires pid in s.procs && dup.DirPanic?
    ensures ForkFinish(s, pid, stack, dup) == Crash
  {
  }

  lemma ViewOf(s: Sys)
    requires SysWf(s)
    ensures View(s).Keys == s.procs.Keys
    ensures forall p | p in s.procs ::
              View(s)[p] == IProc(s.procs[p].sz, UserView(s.vm, s.procs[p].dir), s.procs[p].parent, s.procs[p].zombie)
  {
  }

  lemma DupFacts(vm: Vm, r: DirOutcome, ext: Holds, src: nat, sz: nat)
    requires Duplicated(vm, r, ext, src, sz) && KmapsOk(vm.dataPage)
    ensures !r.DirPanic? && r.vm.Wf() && VmInv(r.vm, ext) && Keeps(vm, r.vm, {}) && KmapsOk(r.vm.dataPage)
  {
  }

  // ---------------------------------------------------------------- growproc

  lemma ProcsOkResize(vm: Vm, vm1: Vm, procs: map<nat, Proc>, pid: nat, sz: nat)
    requires ProcsOk(vm, procs) && pid in procs && Keeps(vm, vm1, {procs[pid].dir})
    requires procs[pid].dir in vm1.dirs && ProcOk(vm1, procs[pid].(sz := sz))
    ensures ProcsOk(vm1, procs[pid := procs[pid].(sz := sz)])
  {
    hide UserView;
  }

  // A resize of one process: the others see what they saw.
  lemma ResizeView(s: Sys, s1: Sys, pid: nat, sz: nat)
    requires SysWf(s) && SysWf(s1) && pid in s.procs && ProcsOk(s.vm, s.procs)
    requires Keeps(s.vm, s1.vm, {s.procs[pid].dir}) && s1.procs == s.procs[pid := s.procs[pid].(sz := sz)]
    requires s.procs[pid].dir in s1.vm.dirs
    ensures View(s1) == View(s)[pid := View(s)[pid].(sz := sz, pages := UserView(s1.vm, s.procs[pid].dir))]
  {
    hide UserView;
    hide ProcOk;
    OneProcChanged(s, s1, pid, View(s)[pid].(sz := sz, pages := UserView(s1.vm, s.procs[pid].dir)));
  }

  lemma ResizeInv(s: Sys, s1: Sys, pid: nat, sz: nat)
    requires SysInv(s) && pid in s.procs && s1.vm.Wf() && KmapsOk(s1.vm.dataPage)
    requires VmInv(s1.vm, Stacked(s.kstacks)) && Keeps(s.vm, s1.vm, {s.procs[pid].dir})
    requires s.procs[pid].dir in s1.vm.dirs && ProcOk(s1.vm, s.procs[pid].(sz := sz))
    requires s1 == s.(vm := s1.vm, procs := s.procs[pid := s.procs[pid].(sz := sz)])
    ensures SysInv(s1)
  {
    hide VmInv;
    hide Keeps;
    hide ProcOk;
    ProcsOkResize(s.vm, s1.vm, s.procs, pid, sz);
    ResizeWf(s, s1, pid);
  }

  lemma ResizeWf(s: Sys, s1: Sys, pid: nat)
    requires ProcsOk(s1.vm, s1.procs) && SysWf(s) && s1.vm.Wf() && KmapsOk(s1.vm.dataPage)
    requires s1.procs.Keys == s.procs.Keys && s1.kstacks == s.kstacks
    ensures SysWf(s1)
  {
    hide ProcOk;
  }

  lemma GrownWithin(vm: Vm, ext: Holds, d: nat, m: map<nat, Page>, v: nat, sz: nat)
    requires VmInv(vm, ext) && vm.Wf() && d in vm.dirs && UserView(vm, d) == GrowView(m, v, PageRoundUp(sz))
    requires forall x | x in m :: x < PageRoundUp(sz)
    ensures WithinSize(vm, d, sz)
  {
    hide VmInv;
    forall x | x in vm.dirs[d].ptes && x < USERPAGES ensures x < PageRoundUp(sz) {
      UserPteOk(vm, ext, d, x);
      assert x in UserView(vm, d);
    }
  }

  lemma DroppedWithin(vm: Vm, vm1: Vm, d: nat, sz: nat, newsz: nat)
    requires d in vm.dirs && d in vm1.dirs && WithinSize(vm, d, sz)
    requires Dropped(vm.dirs[d], vm1.dirs[d], PageRoundUp(newsz), PageRoundUp(sz))
    ensures WithinSize(vm1, d, newsz) && (newsz <= sz ==> WithinSize(vm1, d, sz))
  {
  }

  // Nothing is mapped past the end, so undoing a failed growth gives back the same directory.
  lemma UndoneSame(vm: Vm, vm1: Vm, d: nat, sz: nat, newsz: nat)
    requires vm.Wf() && d in vm.dirs && d in vm1.dirs && WithinSize(vm, d, sz) && newsz <= USERTOP
    requires Dropped(vm.dirs[d], vm1.dirs[d], PageRoundUp(sz), PageRoundUp(newsz))
    ensures vm1.dirs[d] == vm.dirs[d]
    ensures DropView(UserView(vm, d), PageRoundUp(sz), PageRoundUp(newsz)) == UserView(vm, d)
  {
    var p, q := vm.dirs[d].ptes, vm1.dirs[d].ptes;
    assert q == p;
  }

  lemma GrowRefines(s: Sys, pid: nat, n: int, r: StepResult)
    requires SysInv(s) && Enabled(s, Sbrk(pid, n)) && n > 0 && r == DoSbrk(s, pid, n)
    ensures Refines(s, Sbrk(pid, n), r) && (r.ret == 0 || r.ret == -1)
  {
    hide SysInv;
    hide VmInv;
    hide UserView;
    hide View;
    hide AllocFrom;
    hide Keeps;
    SysFacts(s);
    ViewOf(s);
    EnabledAlike(s, Sbrk(pid, n));
    ProcFacts(s.vm, s.procs, pid);
    var p, d := s.procs[pid], s.procs[pid].dir;
    var newsz := p.sz + n;
    if newsz > USERTOP {
      assert AllocUvm(s.vm, d, p.sz, newsz % UINT) == Size(s.vm, 0);
    } else {
      var ext := Stacked(s.kstacks);
      var got := AllocFrom(s.vm, d, PageRoundUp(p.sz), p.sz, newsz);
      AllocKeeps(s.vm, ext, d, PageRoundUp(p.sz), p.sz, newsz, got);
      if got.sz == 0 {
        UndoneSame(s.vm, got.vm, d, p.sz, newsz);
        GrowFailed(s, pid, got, newsz, r.s);
      } else {
        GrowDone(s, pid, got, newsz, r.s);
      }
    }
  }

  lemma GrowFailed(s: Sys, pid: nat, got: SizeOutcome, newsz: nat, s1: Sys)
    requires SysInv(s) && pid in s.procs && newsz <= USERTOP && SysWf(s)
    requires AllocOk(s.vm, got, Stacked(s.kstacks), s.procs[pid].dir, PageRoundUp(s.procs[pid].sz), s.procs[pid].sz, newsz)
    requires got.sz == 0 && got.vm.dirs[s.procs[pid].dir] == s.vm.dirs[s.procs[pid].dir] && KmapsOk(got.vm.dataPage)
    requires DropView(UserView(s.vm, s.procs[pid].dir), PageRoundUp(s.procs[pid].sz), PageRoundUp(newsz)) == UserView(s.vm, s.procs[pid].dir)
    requires s1 == s.(vm := got.vm)
    ensures SysInv(s1) && View(s1) == View(s) && s1.vm.dirs == s.vm.dirs
  {
    hide SysInv;
    hide VmInv;
    hide UserView;
    hide View;
    KeepsSelf(s.vm, got.vm, s.procs[pid].dir);
    KeepsAllProcs(s, got.vm, s1, Stacked(s.kstacks));
  }

  lemma KeepsSelf(vm: Vm, vm1: Vm, d: nat)
    requires Keeps(vm, vm1, {d}) && d in vm.dirs && d in vm1.dirs && vm1.dirs[d] == vm.dirs[d] && UserView(vm1, d) == UserView(vm, d)
    ensures Keeps(vm, vm1, {})
  {
    hide UserView;
  }

  lemma GrowDone(s: Sys, pid: nat, got: SizeOutcome, newsz: nat, s1: Sys)
    requires SysInv(s) && pid in s.procs && s.procs[pid].sz < newsz <= USERTOP && SysWf(s)
    requires AllocOk(s.vm, got, Stacked(s.kstacks), s.procs[pid].dir, PageRoundUp(s.procs[pid].sz), s.procs[pid].sz, newsz)
    requires got.sz != 0 && KmapsOk(got.vm.dataPage) && s1 == SetSize(s, pid, got.vm, newsz)
    ensures SysInv(s1)
    ensures var p := View(s)[pid];
      View(s1) == View(s)[pid := p.(sz := newsz, pages := GrowView(p.pages, PageRoundUp(p.sz), PageRoundUp(newsz)))]
  {
    hide SysInv;
    hide VmInv;
    hide UserView;
    hide View;
    hide Keeps;
    SysFacts(s);
    SysProc(s, pid);
    ViewOf(s);
    ViewBelow(s, pid);
    var d, sz := s.procs[pid].dir, s.procs[pid].sz;
    GrownWithin(got.vm, Stacked(s.kstacks), d, UserView(s.vm, d), PageRoundUp(sz), newsz);
    ResizeInv(s, s1, pid, newsz);
    SysFacts(s1);
    ResizeView(s, s1, pid, newsz);
  }

  lemma SysProc(s: Sys, pid: nat)
    requires SysInv(s) && pid in s.procs
    ensures s.procs[pid].dir in s.vm.dirs && ProcOk(s.vm, s.procs[pid])
  {
  }

  lemma ShrinkRefines(s: Sys, pid: nat, n: int, r: StepResult)
    requires SysInv(s) && Enabled(s, Sbrk(pid, n)) && n < 0 && r == DoSbrk(s, pid, n)
    ensures Refines(s, Sbrk(pid, n), r)
  {
    hide SysInv;
    hide VmInv;
    hide UserView;
    hide View;
    hide DeallocFrom;
    hide Keeps;
    hide DeallocOk;
    SysFacts(s);
    ViewOf(s);
    EnabledAlike(s, Sbrk(pid, n));
    ProcFacts(s.vm, s.procs, pid);
    var p, d := s.procs[pid], s.procs[pid].dir;
    var newsz := (p.sz + n) % UINT;
    if newsz >= p.sz {
      assert s.procs[pid := p.(sz := p.sz)] == s.procs;
    } else {
      var got := DeallocFrom(s.vm, d, PageRoundUp(newsz), p.sz);
      DeallocKeeps(s.vm, Stacked(s.kstacks), d, PageRoundUp(newsz), p.sz, got);
      var sz1 := if newsz == 0 then p.sz else newsz;
      assert s.procs[pid := p.(sz := p.sz)] == s.procs;
      assert r.s == SetSize(s, pid, got.vm, sz1);
      ShrinkDone(s, pid, got.vm, newsz, sz1, r.s);
    }
  }

  lemma ShrinkDone(s: Sys, pid: nat, vm1: Vm, newsz: nat, sz1: nat, s1: Sys)
    requires SysInv(s) && pid in s.procs && newsz < s.procs[pid].sz && SysWf(s)
    requires DeallocOk(s.vm, vm1, Stacked(s.kstacks), s.procs[pid].dir, PageRoundUp(newsz), PageRoundUp(s.procs[pid].sz))
    requires sz1 == (if newsz == 0 then s.procs[pid].sz else newsz) && KmapsOk(vm1.dataPage) && s1 == SetSize(s, pid, vm1, sz1)
    ensures SysInv(s1)
    ensures var p := View(s)[pid];
      View(s1) == View(s)[pid := p.(sz := sz1, pages := DropView(p.pages, PageRoundUp(newsz), PageRoundUp(p.sz)))]
  {
    hide SysInv;
    hide VmInv;
    hide UserView;
    hide View;
    hide Keeps;
    hide WithinSize;
    SysFacts(s);
    SysProc(s, pid);
    ViewOf(s);
    var d, sz := s.procs[pid].dir, s.procs[pid].sz;
    DroppedWithin(s.vm, vm1, d, sz, newsz);
    ResizeInv(s, s1, pid, sz1);
    SysFacts(s1);
    ResizeView(s, s1, pid, sz1);
  }

  // ---------------------------------------------------------------- exit and wait

  // The same processes with the same memory.
  ghost predicate SameMemory(procs: map<nat, Proc>, procs1: map<nat, Proc>) {
    procs1.Keys == procs.Keys
    && forall p | p in procs :: procs1[p].dir == procs[p].dir && procs1[p].sz == procs[p].sz
  }

  lemma ProcsOkSame(vm: Vm, procs: map<nat, Proc>, procs1: map<nat, Proc>)
    requires ProcsOk(vm, procs) && SameMemory(procs, procs1)
    ensures ProcsOk(vm, procs1)
  {
  }

  lemma ExitInv(s: Sys, s1: Sys)
    requires SysInv(s) && s1 == s.(procs := s1.procs) && SameMemory(s.procs, s1.procs)
    ensures SysInv(s1)
  {
    hide VmInv;
    hide ProcsOk;
    ProcsOkSame(s.vm, s.procs, s1.procs);
  }

  lemma ExitView(s: Sys, pid: nat, s1: Sys)
    requires SysWf(s) && SysWf(s1) && pid in s.procs && s1 == DoExit(s, pid).s
    ensures View(s1) == IdealExit(View(s), pid)
  {
    hide UserView;
  }

  lemma ExitShape(s: Sys, pid: nat, s1: Sys)
    requires pid in s.procs && s1 == DoExit(s, pid).s
    ensures s1 == s.(procs := s1.procs) && SameMemory(s.procs, s1.procs)
  {
  }

  lemma ExitRefines(s: Sys, pid: nat, r: StepResult)
    requires SysInv(s) && Enabled(s, Exit(pid)) && r == DoExit(s, pid) && r.Next? && r.ret == 0
    ensures Refines(s, Exit(pid), r)
  {
    hide SysInv;
    hide View;
    hide DoExit;
    hide IdealExit;
    hide SameMemory;
    hide ProcsOk;
    hide Stacked;
    hide VmInv;
    SysFacts(s);
    ExitShape(s, pid, r.s);
    ExitInv(s, r.s);
    SysFacts(r.s);
    ExitView(s, pid, r.s);
    EnabledAlike(s, Exit(pid));
  }

  lemma ExitNext(s: Sys, pid: nat)
    requires pid in s.procs
    ensures DoExit(s, pid).Next? && DoExit(s, pid).ret == 0
  {
  }

  lemma StackedDrop(kstacks: map<nat, nat>, pid: nat)
    ensures Stacked(kstacks - {pid}) == Stacked(kstacks) - {KStack(pid)}
  {
  }

  lemma ProcsOkDrop(vm: Vm, vm1: Vm, procs: map<nat, Proc>, child: nat)
    requires ProcsOk(vm, procs) && child in procs && Keeps(vm, vm1, {procs[child].dir})
    ensures ProcsOk(vm1, procs - {child})
  {
    hide UserView;
  }

  lemma WaitInv(s: Sys, child: nat, s1: Sys)
    requires SysInv(s) && child in s.procs && s1.vm.Wf() && KmapsOk(s1.vm.dataPage)
    requires Keeps(s.vm, s1.vm, {s.procs[child].dir}) && VmInv(s1.vm, Stacked(s.kstacks) - {KStack(child)})
    requires s1 == Sys(s1.vm, s.procs - {child}, s.kstacks - {child}, s.nextPid)
    ensures SysInv(s1)
  {
    hide VmInv;
    hide Keeps;
    hide ProcOk;
    hide Stacked;
    StackedDrop(s.kstacks, child);
    ProcsOkDrop(s.vm, s1.vm, s.procs, child);
    assert s1.kstacks.Keys == s1.procs.Keys + {0};
  }

  lemma WaitView(s: Sys, child: nat, s1: Sys)
    requires SysWf(s) && SysWf(s1) && ProcsOk(s.vm, s.procs) && child in s.procs
    requires Keeps(s.vm, s1.vm, {s.procs[child].dir}) && s1.procs == s.procs - {child}
    ensures View(s1) == View(s) - {child}
  {
    hide UserView;
    hide ProcOk;
  }

  /** Reaping a zombie gives back its stack and all it held, and nothing else. */
  lemma WaitFrees(s: Sys, child: nat, r: StepResult)
    requires SysInv(s) && SysWf(s) && child in s.procs && r == DoWait(s, child)
    ensures r.Next? && r.s.vm.Wf() && KmapsOk(r.s.vm.dataPage) && Keeps(s.vm, r.s.vm, {s.procs[child].dir})
    ensures VmInv(r.s.vm, Stacked(s.kstacks) - {KStack(child)})
    ensures r.s == Sys(r.s.vm, s.procs - {child}, s.kstacks - {child}, s.nextPid) && r.ret == child
    ensures r.s.vm.dirs == s.vm.dirs - {s.procs[child].dir}
  {
    hide SysInv;
    hide VmInv;
    hide UserView;
    hide FreeVm;
    hide Free;
    hide Keeps;
    hide ProcsOk;
    SysFacts(s);
    var ext, d := Stacked(s.kstacks), s.procs[child].dir;
    StackFreed(s.vm, ext, child);
    var vm1 := s.vm.(km := Free(s.vm.km, s.kstacks[child]).km);
    DropStack(s.vm, ext, child, vm1.km);
    FreeVmKeeps(vm1, ext - {KStack(child)}, d, FreeVm(vm1, d));
    KeepsWider(s.vm, vm1, d);
    KeepsTrans(s.vm, vm1, r.s.vm, {d});
  }

  lemma WaitRefines(s: Sys, pid: nat, child: nat, r: StepResult)
    requires SysInv(s) && Enabled(s, Wait(pid, child)) && r == DoWait(s, child)
    ensures Refines(s, Wait(pid, child), r)
  {
    hide SysInv;
    hide VmInv;
    hide UserView;
    hide View;
    hide Keeps;
    hide ProcsOk;
    hide DoWait;
    SysFacts(s);
    EnabledAlike(s, Wait(pid, child));
    WaitFrees(s, child, r);
    WaitInv(s, child, r.s);
    SysFacts(r.s);
    WaitView(s, child, r.s);
  }

  lemma KeepsWider(vm: Vm, vm1: Vm, d: nat)
    requires Keeps(vm, vm1, {})
    ensures Keeps(vm, vm1, {d})
  {
    hide UserView;
  }

  // ---------------------------------------------------------------- every step, every run

  // A page below the end of the process is not mapped.
  ghost predicate Missing(s: Sys, pid: nat)
    requires SysWf(s) && pid in s.procs
  {
    !Present(s.vm, s.procs[pid].dir, 0, PageRoundUp(s.procs[pid].sz))
  }

  /** Every step refines private memory, whichever way fork copies; the only way to crash
      the kernel is a fork with a page missing below the process size. */
  lemma StepRefines(s: Sys, op: Op, policy: Policy, r: StepResult)
    requires SysInv(s) && SysWf(s) && r == Step(s, op, policy) && !Starved(s, op)
    ensures r.Crash? || Refines(s, op, r)
    ensures r.Crash? ==> op.Fork? && Enabled(s, op) && Missing(s, op.pid)
  {
    hide SysInv;
    hide View;
    hide ProcOk;
    hide DoLoad;
    hide DoStore;
    hide DoFault;
    hide DoFork;
    hide DoSbrk;
    hide DoExit;
    hide DoWait;
    EnabledAlike(s, op);
    if Enabled(s, op) {
      match op
      case Load(pid, va) => LoadRefines(s, pid, va); LoadNext(s, pid, va);
      case Store(pid, va, b) => StoreRefines(s, pid, va, b);
      case Fault(pid, va) => FaultRefines(s, pid, va);
      case Fork(pid) => ForkRefines(s, pid, policy, r);
      case Sbrk(pid, n) =>
        if n > 0 {
          GrowRefines(s, pid, n, r);
        } else if n < 0 {
          ShrinkRefines(s, pid, n, r);
        } else {
          SbrkZero(s, pid);
        }
      case Exit(pid) => ExitNext(s, pid); ExitRefines(s, pid, r);
      case Wait(pid, c) => WaitRefines(s, pid, c, r);
    }
  }

  lemma LoadNext(s: Sys, pid: nat, va: nat)
    requires SysWf(s) && pid in s.procs
    ensures DoLoad(s, pid, va).Next?
  {
  }

  lemma SbrkZero(s: Sys, pid: nat)
    requires SysInv(s) && Enabled(s, Sbrk(pid, 0))
    ensures Refines(s, Sbrk(pid, 0), DoSbrk(s, pid, 0))
  {
    hide VmInv;
    hide View;
    EnabledAlike(s, Sbrk(pid, 0));
  }

  /** A run: states, the ops between them and what each op answered. */
  ghost predicate IsRun(ss: seq<Sys>, ops: seq<Op>, rets: seq<int>, policy: Policy) {
    && |ss| == |ops| + 1 && |rets| == |ops|
    && forall i | 0 <= i < |ops| ::
         SysWf(ss[i]) && !Starved(ss[i], ops[i]) && Step(ss[i], ops[i], policy) == Next(ss[i + 1], rets[i])
  }

  /** In every reachable state every count equals its number of holders and writable frames
      are unshared. */
  lemma {:induction false} RunInvariant(ss: seq<Sys>, ops: seq<Op>, rets: seq<int>, policy: Policy, i: nat)
    requires IsRun(ss, ops, rets, policy) && SysInv(ss[0]) && i < |ss|
    ensures SysInv(ss[i])
    ensures i > 0 ==> SysInv(ss[i - 1]) && Refines(ss[i - 1], ops[i - 1], Next(ss[i], rets[i - 1]))
  {
    hide SysInv;
    hide Step;
    hide View;
    hide IdealStep;
    hide IdealRet;
    if i > 0 {
      RunInvariant(ss, ops, rets, policy, i - 1);
      StepRefines(ss[i - 1], ops[i - 1], policy, Next(ss[i], rets[i - 1]));
      StepSound(ss[i - 1], ops[i - 1], Next(ss[i], rets[i - 1]));
    }
  }

  lemma StepSound(s: Sys, op: Op, r: StepResult)
    requires SysWf(s) && Refines(s, op, r)
    ensures r.Next? && SysInv(r.s) && SysWf(r.s)
  {
  }

  /** Copy-on-write refines the eager copy.  Take two runs of the same ops, one forking with
      cowuvm and one with copyuvm, from states that show the same memory.  If the answers that
      depend on free memory (fork, growing) agree, then all answers agree, every byte loaded
      included, and the two show the same memory at every point. */
  lemma {:induction false} CowEqualsEager(ss: seq<Sys>, tt: seq<Sys>, ops: seq<Op>, cowRets: seq<int>, eagerRets: seq<int>, i: nat)
    requires IsRun(ss, ops, cowRets, Cow) && IsRun(tt, ops, eagerRets, Eager)
    requires SysInv(ss[0]) && SysInv(tt[0]) && View(ss[0]) == View(tt[0])
    requires forall j | 0 <= j < |ops| && MemoryOp(ops[j]) :: cowRets[j] == eagerRets[j]
    requires i <= |ops|
    ensures SysInv(ss[i]) && SysInv(tt[i]) && View(ss[i]) == View(tt[i])
    ensures cowRets[..i] == eagerRets[..i]
  {
    hide SysInv;
    hide Step;
    hide View;
    hide IdealStep;
    hide IdealRet;
    hide Starved;
    if i > 0 {
      CowEqualsEager(ss, tt, ops, cowRets, eagerRets, i - 1);
      RunInvariant(ss, ops, cowRets, Cow, i);
      RunInvariant(tt, ops, eagerRets, Eager, i);
      StepSound(ss[i - 1], ops[i - 1], Next(ss[i], cowRets[i - 1]));
      StepSound(tt[i - 1], ops[i - 1], Next(tt[i], eagerRets[i - 1]));
      SameAnswer(ss[i - 1], tt[i - 1], ops[i - 1], Next(ss[i], cowRets[i - 1]), Next(tt[i], eagerRets[i - 1]));
      assert cowRets[..i] == cowRets[..i - 1] + [cowRets[i - 1]];
      assert eagerRets[..i] == eagerRets[..i - 1] + [eagerRets[i - 1]];
    } else {
      InvWf(ss[0]);
      InvWf(tt[0]);
    }
  }

  lemma SameAnswer(s: Sys, t: Sys, op: Op, r: StepResult, q: StepResult)
    requires SysWf(s) && SysWf(t) && View(s) == View(t)
    requires Refines(s, op, r) && Refines(t, op, q) && SysWf(r.s) && SysWf(q.s)
    requires MemoryOp(op) ==> r.ret == q.ret
    ensures r.ret == q.ret && View(r.s) == View(q.s)
  {
    hide SysInv;
    hide View;
    hide IdealStep;
    hide IdealRet;
  }

  // ---------------------------------------------------------------- when the kernel crashes

  ghost predicate Whole(m: Ideal) {
    forall p, v: nat | p in m && v < PageRoundUp(m[p].sz) :: v in m[p].pages
  }

  // growproc asked to shrink a nonempty process to exactly 0.
  ghost predicate ShrinksToZero(m: Ideal, op: Op) {
    op.Sbrk? && op.pid in m && op.n < 0 && m[op.pid].sz > 0 && (m[op.pid].sz + op.n) % UINT == 0
  }

  lemma WholeIsPresent(s: Sys, pid: nat)
    requires SysInv(s) && SysWf(s) && pid in s.procs && Whole(View(s))
    ensures !Missing(s, pid)
  {
    hide VmInv;
    hide ProcsOk;
    forall v | 0 <= v < PageRoundUp(s.procs[pid].sz) ensures v in s.vm.dirs[s.procs[pid].dir].ptes {
      assert v in View(s)[pid].pages;
    }
  }

  lemma WholeKept(m: Ideal, op: Op, ret: int)
    requires Whole(m) && !ShrinksToZero(m, op)
    ensures Whole(IdealStep(m, op, ret))
  {
    var m1 := IdealStep(m, op, ret);
    forall p, v: nat | p in m1 && v < PageRoundUp(m1[p].sz) ensures v in m1[p].pages {
      if op.Sbrk? && IEnabled(m, op) && p == op.pid && op.n < 0 {
        var newsz := (m[p].sz + op.n) % UINT;
        assert newsz < m[p].sz ==> PageRoundUp(newsz) <= PageRoundUp(m[p].sz);
      }
    }
  }

  /** As long as nobody shrinks a process to exactly 0 and every copying fault finds a free
      frame, no run ever panics. */
  lemma NeverCrashes(s: Sys, op: Op, policy: Policy)
    requires SysInv(s) && SysWf(s) && Whole(View(s)) && !Starved(s, op) && !ShrinksToZero(View(s), op)
    ensures Step(s, op, policy).Next?
    ensures SysWf(Step(s, op, policy).s) && Whole(View(Step(s, op, policy).s))
  {
    hide SysInv;
    hide View;
    hide Step;
    hide Whole;
    hide Missing;
    var r := Step(s, op, policy);
    StepRefines(s, op, policy, r);
    if r.Crash? {
      EnabledPid(s, op);
      WholeIsPresent(s, op.pid);
    } else {
      StepSound(s, op, r);
      WholeKept(View(s), op, r.ret);
    }
  }

  lemma EnabledPid(s: Sys, op: Op)
    requires SysWf(s) && Enabled(s, op)
    ensures op.pid in s.procs
  {
  }

  /** Shrinking to exactly 0 is the exception: growproc reports failure and leaves the size
      alone, but every page is gone. */
  lemma ShrinkToZeroLosesPages(s: Sys, pid: nat, n: int)
    requires SysInv(s) && SysWf(s) && Enabled(s, Sbrk(pid, n)) && n < 0 && s.procs[pid].sz + n == 0
    ensures var r := Step(s, Sbrk(pid, n), Cow);
      r.Next? && r.ret == -1 && SysWf(r.s) && SysInv(r.s) && pid in View(r.s)
      && View(r.s)[pid].sz == s.procs[pid].sz && View(r.s)[pid].pages == map[]
  {
    hide SysInv;
    hide View;
    hide Step;
    var op := Sbrk(pid, n);
    var r := Step(s, op, Cow);
    StepRefines(s, op, Cow, r);
    StepSound(s, op, r);
    EnabledAlike(s, op);
    ViewOf(s);
    ViewBelow(s, pid);
    assert DropView(View(s)[pid].pages, 0, PageRoundUp(s.procs[pid].sz)) == map[];
  }

  /** A copy-on-write fork panics exactly when it gets as far as copying pages and one below
      the size is missing. */
  lemma ForkCrashExact(s: Sys, pid: nat)
    requires SysInv(s) && SysWf(s) && Enabled(s, Fork(pid))
    ensures Step(s, Fork(pid), Cow).Crash? <==>
              |s.procs| < NPROC && Alloc(s.vm.km).Allocated?
              && SetupKvm(s.vm.(km := Alloc(s.vm.km).km)).NewDir? && Missing(s, pid)
  {
    hide SysInv;
    hide VmInv;
    hide View;
    hide ProcsOk;
    hide SetupKvm;
    hide Present;
    hide DupUvm;
    ForkRefines(s, pid, Cow, DoFork(s, pid, Cow));
    if |s.procs| < NPROC && Alloc(s.vm.km).Allocated? {
      var stack, vm0 := Alloc(s.vm.km).frame, s.vm.(km := Alloc(s.vm.km).km);
      ForkStack(s, stack, vm0);
      var ext1 := Stacked(s.kstacks)[KStack(s.nextPid) := stack];
      SysFacts(s);
      SysProc(s, pid);
      var dup := DupUvm(vm0, s.procs[pid].dir, s.procs[pid].sz, Cow);
      DupKeeps(vm0, ext1, s.procs[pid].dir, s.procs[pid].sz, Cow, dup);
      SetupNeverPanics(vm0, ext1);
      SamePresent(s.vm, vm0, s.procs[pid].dir, PageRoundUp(s.procs[pid].sz));
      if dup.NoDir? {
        DupFacts(vm0, dup, ext1, s.procs[pid].dir, s.procs[pid].sz);
        StackFreed(dup.vm, ext1, s.nextPid);
      }
    }
  }

  lemma SetupNeverPanics(vm: Vm, ext: Holds)
    requires VmInv(vm, ext) && vm.Wf() && KmapsOk(vm.dataPage)
    ensures !SetupKvm(vm).DirPanic?
  {
    SetupKvmKeeps(vm, ext, SetupKvm(vm));
  }

  // ---------------------------------------------------------------- conservation

  /** Equal holders mean equal counts and the same free frames. */
  lemma SameHoldsSameCounts(vm: Vm, vm1: Vm, ext: Holds)
    requires VmInv(vm, ext) && VmInv(vm1, ext) && vm.Wf() && vm1.Wf() && vm1.km.lo == vm.km.lo
    requires AllHolds(vm1, ext) == AllHolds(vm, ext)
    ensures forall f | vm.km.Managed(f) :: vm1.km.refcnt[f] == vm.km.refcnt[f]
    ensures FreeSet(vm1.km) == FreeSet(vm.km) && vm1.km.freePages == vm.km.freePages
  {
    hide WritableUnshared;
    hide DirsOk;
    FreePagesCountsFrames(vm.km);
    FreePagesCountsFrames(vm1.km);
    assert CountZero(vm1.km) == CountZero(vm.km);
  }

  // What a successful fork adds: one directory, one stack, one process.
  ghost predicate ForkAdds(s: Sys, pid: nat, s1: Sys, stack: nat, d: nat) {
    && pid in s.procs && s.nextPid !in s.kstacks && d !in s.vm.dirs && Keeps(s.vm, s1.vm, {})
    && s1.vm.dirs.Keys == s.vm.dirs.Keys + {d}
    && Forked(s, pid, s1.vm, d, stack, s1)
  }

  lemma ForkShape(s: Sys, pid: nat, policy: Policy, r: StepResult) returns (stack: nat)
    requires SysInv(s) && Enabled(s, Fork(pid)) && r == DoFork(s, pid, policy) && r.Next? && r.ret >= 0
    ensures r.ret == s.nextPid && s.nextPid in r.s.procs && ForkAdds(s, pid, r.s, stack, r.s.procs[s.nextPid].dir)
  {
    hide SysInv;
    hide VmInv;
    hide Keeps;
    hide DupUvm;
    hide ProcsOk;
    SysFacts(s);
    stack := Alloc(s.vm.km).frame;
    var vm0 := s.vm.(km := Alloc(s.vm.km).km);
    ForkStack(s, stack, vm0);
    var ext1 := Stacked(s.kstacks)[KStack(s.nextPid) := stack];
    ProcFacts(s.vm, s.procs, pid);
    var dup := DupUvm(vm0, s.procs[pid].dir, s.procs[pid].sz, policy);
    DupKeeps(vm0, ext1, s.procs[pid].dir, s.procs[pid].sz, policy, dup);
    KeepsTrans(s.vm, vm0, dup.vm, {});
  }

  /** fork, then the child's exit, then wait: every reference count and the set of free
      frames are back to what they were. */
  lemma ForkExitWaitRestores(s: Sys, pid: nat, policy: Policy, s1: Sys, s2: Sys, s3: Sys, child: nat)
    requires SysInv(s) && SysWf(s) && SysWf(s1) && SysWf(s2) && Enabled(s, Fork(pid))
    requires Step(s, Fork(pid), policy) == Next(s1, child)
    requires Enabled(s1, Exit(child)) && Step(s1, Exit(child), policy) == Next(s2, 0)
    requires Enabled(s2, Wait(pid, child)) && Step(s2, Wait(pid, child), policy) == Next(s3, child)
    ensures s3.vm.Wf() && forall f | s.vm.km.Managed(f) :: s3.vm.km.refcnt[f] == s.vm.km.refcnt[f]
    ensures FreeSet(s3.vm.km) == FreeSet(s.vm.km) && s3.vm.km.freePages == s.vm.km.freePages
  {
    hide SysInv;
    hide VmInv;
    hide ProcsOk;
    hide View;
    hide Refines;
    hide DoFork;
    hide DoWait;
    hide Keeps;
    SysFacts(s);
    var stack := ForkShape(s, pid, policy, Next(s1, child));
    ForkRefines(s, pid, policy, Next(s1, child));
    StepSound(s, Fork(pid), Next(s1, child));
    ExitShape(s1, child, s2);
    ExitInv(s1, s2);
    WaitFrees(s2, child, Next(s3, child));
    SysFacts(s1);
    RestoredHolds(s, pid, s1, stack, s1.procs[child].dir, s3);
    SameHoldsSameCounts(s.vm, s3.vm, Stacked(s.kstacks));
  }

  lemma RestoredHolds(s: Sys, pid: nat, s1: Sys, stack: nat, d: nat, s3: Sys)
    requires ForkAdds(s, pid, s1, stack, d) && Keeps(s1.vm, s3.vm, {d}) && s3.vm.dirs == s1.vm.dirs - {d}
    ensures AllHolds(s3.vm, Stacked(s.kstacks)) == AllHolds(s.vm, Stacked(s.kstacks)) && s3.vm.km.lo == s.vm.km.lo
    ensures Stacked(s1.kstacks) - {KStack(s.nextPid)} == Stacked(s.kstacks)
  {
    hide UserView;
    StackedAdd(s.kstacks, s.nextPid, stack);
    assert s3.vm.dirs.Keys == s.vm.dirs.Keys;
    HoldsSameFrames(s.vm.dirs, s3.vm.dirs);
  }

  /** A growth that runs out of memory restores the mappings, the counts and the free set.
      It does so exactly when there are fewer free frames than missing pages. */
  lemma OutOfMemoryRestores(vm: Vm, ext: Holds, d: nat, sz: nat, newsz: nat, r: SizeOutcome)
    requires VmInv(vm, ext) && vm.Wf() && d in vm.dirs && 0 in vm.dirs[d].tables && WithinSize(vm, d, sz)
    requires sz < newsz <= USERTOP && r == AllocUvm(vm, d, sz, newsz)
    ensures r.Size? && (r.sz == 0 <==> vm.km.freePages < PageRoundUp(newsz) - PageRoundUp(sz))
    ensures r.sz == 0 ==> r.vm.dirs == vm.dirs && UserView(r.vm, d) == UserView(vm, d) && FreeSet(r.vm.km) == FreeSet(vm.km)
    ensures r.sz == 0 ==> forall f | vm.km.Managed(f) :: r.vm.km.refcnt[f] == vm.km.refcnt[f]
    ensures r.sz != 0 ==> r.sz == newsz && UserView(r.vm, d) == GrowView(UserView(vm, d), PageRoundUp(sz), PageRoundUp(newsz))
  {
    hide VmInv;
    hide UserView;
    hide AllocFrom;
    hide DropView;
    hide GrowView;
    hide Keeps;
    hide WithinSize;
    hide AllocOk;
    hide FreeSet;
    FreePagesAre(vm, ext);
    NothingPast(vm, d, sz);
    AllocKeeps(vm, ext, d, PageRoundUp(sz), sz, newsz, r);
    AllocFacts(vm, ext, d, sz, newsz, r);
    GrowthFacts(vm, ext, d, sz, newsz, r);
  }

  lemma NothingPast(vm: Vm, d: nat, sz: nat)
    requires d in vm.dirs && WithinSize(vm, d, sz)
    ensures forall x | PageRoundUp(sz) <= x < USERPAGES :: x !in vm.dirs[d].ptes
  {
  }

  lemma GrowthUndone(vm: Vm, ext: Holds, d: nat, sz: nat, newsz: nat, r: SizeOutcome)
    requires vm.Wf() && d in vm.dirs && WithinSize(vm, d, sz) && newsz <= USERTOP
    requires AllocOk(vm, r, ext, d, PageRoundUp(sz), sz, newsz) && r.sz == 0
    ensures r.vm.dirs == vm.dirs && UserView(r.vm, d) == UserView(vm, d)
  {
    hide VmInv;
    hide UserView;
    hide WithinSize;
    hide DropView;
    hide Keeps;
    hide Dropped;
    UndoneSame(vm, r.vm, d, sz, newsz);
  }

  lemma AllocFacts(vm: Vm, ext: Holds, d: nat, sz: nat, newsz: nat, r: SizeOutcome)
    requires AllocOk(vm, r, ext, d, PageRoundUp(sz), sz, newsz)
    ensures r.Size? && vm.Wf() && r.vm.Wf() && VmInv(r.vm, ext) && r.vm.km.lo == vm.km.lo && d in vm.dirs && d in r.vm.dirs
    ensures r.sz != 0 ==> r.sz == newsz && UserView(r.vm, d) == GrowView(UserView(vm, d), PageRoundUp(sz), PageRoundUp(newsz))
  {
    hide VmInv;
    hide UserView;
    hide DropView;
    hide Dropped;
  }

  lemma GrowthFacts(vm: Vm, ext: Holds, d: nat, sz: nat, newsz: nat, r: SizeOutcome)
    requires VmInv(vm, ext) && vm.Wf() && d in vm.dirs && WithinSize(vm, d, sz) && newsz <= USERTOP
    requires r.Size? && r.vm.Wf() && d in r.vm.dirs && AllocOk(vm, r, ext, d, PageRoundUp(sz), sz, newsz)
    ensures r.sz == 0 ==> r.vm.dirs == vm.dirs && UserView(r.vm, d) == UserView(vm, d) && FreeSet(r.vm.km) == FreeSet(vm.km)
    ensures r.sz == 0 ==> forall f | vm.km.Managed(f) :: r.vm.km.refcnt[f] == vm.km.refcnt[f]
    ensures r.sz != 0 ==> r.sz == newsz && UserView(r.vm, d) == GrowView(UserView(vm, d), PageRoundUp(sz), PageRoundUp(newsz))
  {
    hide VmInv;
    hide UserView;
    hide GrowView;
    hide WithinSize;
    hide AllocOk;
    hide FreeSet;
    AllocFacts(vm, ext, d, sz, newsz, r);
    if r.sz == 0 {
      GrowthUndone(vm, ext, d, sz, newsz, r);
      SameHoldsSameCounts(vm, r.vm, ext);
    }
  }

  lemma FreePagesAre(vm: Vm, ext: Holds)
    requires VmInv(vm, ext)
    ensures vm.km.freePages == |vm.km.freelist|
  {
  }
}
