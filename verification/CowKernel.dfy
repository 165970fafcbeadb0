/** The allocator and the virtual-memory code in the form the kernel has them: global fields
    and a page-directory table updated in place, page by page.  Every method is proved equal
    to its function in Kalloc and Vm, so everything proved there holds of these loops. */
module CowKernel {
  import opened Kalloc
  import opened Vm
  import opened CowSystem

  // One round of the mappages loop.
  lemma MapPagesStep(vm: Vm, d: nat, v: nat, n: nat, f: nat, w: bool, u: bool)
    requires vm.Wf() && d in vm.dirs && n > 0
    ensures MapPages(vm, d, v, n, f, w, u) ==
              match WalkCreate(vm, d, v)
              case Fail(vm1) => Fail(vm1)
              case Ok(vm1) =>
                if v in vm1.dirs[d].ptes then Panic
                else MapPages(SetPte(vm1, d, v, Pte(f, w, u)), d, v + 1, n - 1, f + 1, w, u)
  {
  }

  // copyuvm's loop, one turn.
  lemma CopyFromStep(vm: Vm, src: nat, d: nat, v: nat, sz: nat)
    requires vm.Wf() && src in vm.dirs && d in vm.dirs
    ensures CopyFrom(vm, src, d, v, sz) ==
      if v * PGSIZE >= sz then NewDir(vm, d)
      else if v !in vm.dirs[src].ptes then DirPanic
      else
        var e := vm.dirs[src].ptes[v];
        match Alloc(vm.km)
        case OutOfMemory => FreeVmFail(vm, d)
        case Allocated(km, f) =>
          if e.frame >= NFRAMES then DirPanic
          else
            (match MapPages(vm.(km := WritePage(km, f, km.mem[e.frame])), d, v, 1, f, e.w, e.u)
             case Panic => DirPanic
             case Fail(vm1) => FreeVmFail(vm1, d)
             case Ok(vm1) => CopyFrom(vm1, src, d, v + 1, sz))
  {
  }

  // allocuvm's loop, one turn.
  lemma AllocFromStep(vm: Vm, d: nat, v: nat, oldsz: nat, newsz: nat)
    requires vm.Wf() && d in vm.dirs
    ensures AllocFrom(vm, d, v, oldsz, newsz) ==
      if v * PGSIZE >= newsz then Size(vm, newsz)
      else
        match Alloc(vm.km)
        case OutOfMemory =>
          (match DeallocUvm(vm, d, newsz, oldsz)
           case SizePanic => SizePanic
           case Size(vm1, _) => Size(vm1, 0))
        case Allocated(km, f) =>
          (match MapPages(vm.(km := WritePage(km, f, ZeroPage())), d, v, 1, f, true, true)
           case Panic => SizePanic
           case Ok(vm1) => AllocFrom(vm1, d, v + 1, oldsz, newsz)
           case Fail(vm1) => AllocFrom(vm1, d, v + 1, oldsz, newsz))
  {
  }

  lemma MapPagesNone(vm: Vm, d: nat, v: nat, f: nat, w: bool, u: bool)
    requires vm.Wf() && d in vm.dirs
    ensures MapPages(vm, d, v, 0, f, w, u) == Ok(vm)
  {
  }

  class Kernel {
    const lo: nat                      // first frame after the kernel image
    const dataPage: nat                // first kernel data page
    const refCnt: array<Uint>          // kmem.ref_cnt
    const mem: array<Page>             // physical memory
    var freelist: seq<nat>             // kmem.freelist, threaded through the free frames
    var freePages: nat                 // kmem.free_pages
    var dirs: map<nat, PageDir>        // the page directories, by frame
    var procs: map<nat, Proc>          // the used slots of the process table, by pid
    var kstacks: map<nat, nat>         // kernel stacks by pid; 0: the boot stack
    var nextPid: nat

    ghost predicate Valid()
      reads this, refCnt, mem
    {
      && refCnt.Length == NFRAMES && mem.Length == NFRAMES && Km().Wf()
    }

    ghost function Km(): Kmem
      reads this, refCnt, mem
    {
      Kmem(lo, freelist, refCnt[..], freePages, mem[..])
    }

    ghost function V(): Vm
      reads this, refCnt, mem
    {
      Vm(Km(), dirs, dataPage)
    }

    ghost function S(): Sys
      reads this, refCnt, mem
    {
      Sys(V(), procs, kstacks, nextPid)
    }

    /** Power-on: nothing is free yet. */
    constructor (lo: nat, dataPage: nat)
      requires 0 < lo <= NFRAMES
      ensures Valid() && this.lo == lo && this.dataPage == dataPage && fresh(refCnt) && fresh(mem)
      ensures freelist == [] && freePages == 0 && dirs == map[] && procs == map[] && kstacks == map[] && nextPid == 1
    {
      this.lo, this.dataPage := lo, dataPage;
      refCnt := new Uint[NFRAMES](i => 0);
      mem := new Page[NFRAMES](i => ZeroPage());
      freelist, freePages, dirs := [], 0, map[];
      procs, kstacks, nextPid := map[], map[], 1;
    }

    // ---------------------------------------------------------------- kalloc.c

    method FreeInit(f: nat)
      requires Valid() && f < NFRAMES
      modifies `freelist, `freePages, `dirs, refCnt, mem
      ensures Valid() && Km() == KfreeInit(old(Km()), f) && dirs == old(dirs)
    {
      mem[f] := JunkPage();
      refCnt[f] := 0;
      freePages := freePages + 1;
      freelist := [f] + freelist;
    }

    method Kinit()
      requires Valid()
      modifies `freelist, `freePages, `dirs, refCnt, mem
      ensures Valid() && Km() == KinitFrom(old(Km()).(freePages := 0), lo) && dirs == old(dirs)
    {
      freePages := 0;
      var p := lo;
      while p + 1 <= NFRAMES
        invariant Valid() && dirs == old(dirs) && lo <= p <= NFRAMES
        invariant KinitFrom(old(Km()).(freePages := 0), lo) == KinitFrom(Km(), p)
      {
        FreeInit(p);
        p := p + 1;
      }
    }

    method Kalloc() returns (ok: bool, f: nat)
      requires Valid()
      modifies `freelist, `freePages, refCnt
      ensures Valid() && dirs == old(dirs)
      ensures Alloc(old(Km())) == if ok then Allocated(Km(), f) else OutOfMemory
      ensures !ok ==> Km() == old(Km())
      ensures ok ==> f < NFRAMES
    {
      f := 0;
      ok := freelist != [];
      if ok {
        f := freelist[0];
        assert f in freelist && forall g | g in freelist[1..] :: g in freelist;
        freelist := freelist[1..];
        refCnt[f] := 1;
        freePages := if freePages == 0 then UINT - 1 else freePages - 1;
      }
    }

    /** ok: kfree did not panic. */
    method Kfree(f: nat) returns (ok: bool)
      requires Valid()
      modifies `freelist, `freePages, `dirs, refCnt, mem
      ensures Valid() && dirs == old(dirs)
      ensures Free(old(Km()), f) == if ok then Freed(Km()) else FreePanic
    {
      ok := lo <= f < NFRAMES;
      if ok {
        var cnt := AsInt(refCnt[f]);
        if cnt > 1 {
          refCnt[f] := Minus1(refCnt[f]);
        } else if cnt == 1 {
          refCnt[f] := Minus1(refCnt[f]);
          mem[f] := JunkPage();
          freePages := freePages + 1;
          freelist := [f] + freelist;
        } else {
          ok := false;
        }
      }
    }

    method IncRefCnt(f: nat)
      requires Valid() && f < NFRAMES
      modifies refCnt
      ensures Valid() && Km() == Inc(old(Km()), f)
    {
      refCnt[f] := Plus1(refCnt[f]);
    }

    method DecRefCnt(f: nat)
      requires Valid() && f < NFRAMES
      modifies refCnt
      ensures Valid() && Km() == Dec(old(Km()), f)
    {
      refCnt[f] := Minus1(refCnt[f]);
    }

    method SetPage(f: nat, p: Page)
      requires Valid() && f < NFRAMES
      modifies mem
      ensures Valid() && Km() == WritePage(old(Km()), f, p)
    {
      mem[f] := p;
    }

    // ---------------------------------------------------------------- vm.c

    /** walkpgdir with create. */
    method WalkPgdir(d: nat, v: nat) returns (ok: bool)
      requires Valid() && d in dirs
      modifies `freelist, `freePages, `dirs, refCnt, mem
      ensures Valid() && WalkCreate(old(V()), d, v) == if ok then Ok(V()) else Fail(V())
    {
      ok := true;
      if v / ENTRIES !in dirs[d].tables {
        var f: nat;
        ok, f := Kalloc();
        if ok {
          SetPage(f, ZeroPage());
          dirs := dirs[d := dirs[d].(tables := dirs[d].tables[v / ENTRIES := f])];
        }
      }
    }

    ghost function Result(panicked: bool, rc: int): Outcome
      reads this, refCnt, mem
    {
      if panicked then Panic else if rc == 0 then Ok(V()) else Fail(V())
    }

    /** mappages for n >= 1 pages. */
    method Mappages(d: nat, v: nat, n: nat, f: nat, w: bool, u: bool) returns (panicked: bool, rc: int)
      requires Valid() && d in dirs && n >= 1
      modifies `freelist, `freePages, `dirs, refCnt, mem
      ensures Valid() && MapPages(old(V()), d, v, n, f, w, u) == Result(panicked, rc)
      ensures !panicked ==> SameShape(old(V()), V())
    {
      hide MapPages;
      hide WalkCreate;
      var a, last, pa := v, v + n - 1, f;
      while true
        invariant Valid() && SameShape(old(V()), V()) && v <= a <= last
        invariant MapPages(old(V()), d, v, n, f, w, u) == MapPages(V(), d, a, last - a + 1, pa, w, u)
        decreases last - a
      {
        MapPagesStep(V(), d, a, last - a + 1, pa, w, u);
        var ok := WalkPgdir(d, a);
        if !ok { return false, -1; }
        if a in dirs[d].ptes { return true, 0; }
        dirs := dirs[d := dirs[d].(ptes := dirs[d].ptes[a := Pte(pa, w, u)])];
        if a == last {
          MapPagesNone(V(), d, a + 1, pa + 1, w, u);
          break;
        }
        a, pa := a + 1, pa + 1;
      }
      return false, 0;
    }

    ghost function DirResult(panicked: bool, ok: bool, d: nat): DirOutcome
      reads this, refCnt, mem
    {
      if panicked then DirPanic else if ok then NewDir(V(), d) else NoDir(V())
    }

    method Setupkvm() returns (panicked: bool, ok: bool, d: nat)
      requires Valid() && KmapsOk(dataPage)
      modifies `freelist, `freePages, `dirs, refCnt, mem
      ensures Valid() && SetupKvm(old(V())) == DirResult(panicked, ok, d)
    {
      hide MapPages;
      ok, d := Kalloc();
      if !ok { return false, false, d; }
      SetPage(d, ZeroPage());
      dirs := dirs[d := PageDir(map[], map[])];
      label made:
      var i := 0;
      while i < 4
        invariant Valid() && d in dirs && 0 <= i <= 4
        invariant SetupFrom(old@made(V()), d, 0) == SetupFrom(V(), d, i)
      {
        var k := KmapEntry(dataPage, i);
        var rc: int;
        panicked, rc := Mappages(d, k.lo, k.hi - k.lo, k.lo, k.w, false);
        if panicked { return true, false, d; }
        if rc < 0 || rc > 0 { return false, false, d; }
        i := i + 1;
      }
      return false, true, d;
    }

    /** deallocuvm: sz is its return value. */
    method Deallocuvm(d: nat, oldsz: nat, newsz: nat) returns (panicked: bool, sz: nat)
      requires Valid() && d in dirs
      modifies `freelist, `freePages, `dirs, refCnt, mem
      ensures Valid() && DeallocUvm(old(V()), d, oldsz, newsz) == if panicked then SizePanic else Size(V(), sz)
      ensures !panicked ==> SameShape(old(V()), V())
    {
      if newsz >= oldsz { return false, oldsz; }
      var a := PageRoundUp(newsz);
      while a * PGSIZE < oldsz
        invariant Valid() && SameShape(old(V()), V())
        invariant DeallocFrom(old(V()), d, PageRoundUp(newsz), oldsz) == DeallocFrom(V(), d, a, oldsz)
        decreases oldsz - a * PGSIZE
      {
        if a in dirs[d].ptes {
          var f := dirs[d].ptes[a].frame;
          if f == 0 { return true, 0; }
          var ok := Kfree(f);
          if !ok { return true, 0; }
          dirs := dirs[d := dirs[d].(ptes := dirs[d].ptes - {a})];
        }
        a := a + 1;
      }
      return false, newsz;
    }

    /** allocuvm: sz is its return value, 0 on error. */
    method Allocuvm(d: nat, oldsz: nat, newsz: nat) returns (panicked: bool, sz: nat)
      requires Valid() && d in dirs
      modifies `freelist, `freePages, `dirs, refCnt, mem
      ensures Valid() && AllocUvm(old(V()), d, oldsz, newsz) == if panicked then SizePanic else Size(V(), sz)
    {
      hide AllocFrom;
      hide MapPages;
      hide DeallocUvm;
      if newsz > USERTOP { return false, 0; }
      if newsz < oldsz { return false, oldsz; }
      var a := PageRoundUp(oldsz);
      while a * PGSIZE < newsz
        invariant Valid() && SameShape(old(V()), V())
        invariant AllocFrom(old(V()), d, PageRoundUp(oldsz), oldsz, newsz) == AllocFrom(V(), d, a, oldsz, newsz)
        decreases newsz - a * PGSIZE
      {
        AllocFromStep(V(), d, a, oldsz, newsz);
        var ok, f := Kalloc();
        if !ok {
          panicked, sz := Deallocuvm(d, newsz, oldsz);
          return panicked, 0;
        }
        SetPage(f, ZeroPage());
        var rc: int;
        panicked, rc := Mappages(d, a, 1, f, true, true);
        if panicked { return true, 0; }
        a := a + 1;
      }
      AllocFromStep(V(), d, a, oldsz, newsz);
      return false, newsz;
    }

    method Freevm(d: nat) returns (panicked: bool)
      requires Valid() && d in dirs
      modifies `freelist, `freePages, `dirs, refCnt, mem
      ensures Valid() && FreeVm(old(V()), d) == if panicked then Panic else Ok(V())
    {
      var sz: nat;
      panicked, sz := Deallocuvm(d, USERTOP, 0);
      if panicked { return; }
      label emptied:
      var i := 0;
      while i < ENTRIES
        invariant Valid() && 0 <= i <= ENTRIES && dirs == old@emptied(dirs) && d in dirs
        invariant FreeTables(old@emptied(Km()), dirs[d].tables, 0) == FreeTables(Km(), dirs[d].tables, i)
      {
        if i in dirs[d].tables {
          var ok := Kfree(dirs[d].tables[i]);
          if !ok { return true; }
        }
        i := i + 1;
      }
      var ok := Kfree(d);
      if !ok { return true; }
      dirs := dirs - {d};
    }

    // The exit the two copies share: give the new directory back.
    method Bad(d: nat) returns (panicked: bool)
      requires Valid() && d in dirs
      modifies `freelist, `freePages, `dirs, refCnt, mem
      ensures Valid() && FreeVmFail(old(V()), d) == DirResult(panicked, false, d)
    {
      panicked := Freevm(d);
    }

    method Copyuvm(src: nat, sz: nat) returns (panicked: bool, ok: bool, d: nat)
      requires Valid() && src in dirs && KmapsOk(dataPage)
      modifies `freelist, `freePages, `dirs, refCnt, mem
      ensures Valid() && DupUvm(old(V()), src, sz, Eager) == DirResult(panicked, ok, d)
    {
      hide MapPages;
      hide SetupKvm;
      hide FreeVm;
      hide CopyFrom;
      panicked, ok, d := Setupkvm();
      if panicked || !ok { return; }
      label made:
      var i := 0;
      while i * PGSIZE < sz
        invariant Valid() && src in dirs && d in dirs
        invariant CopyFrom(old@made(V()), src, d, 0, sz) == CopyFrom(V(), src, d, i, sz)
        decreases sz - i * PGSIZE
      {
        CopyFromStep(V(), src, d, i, sz);
        if i !in dirs[src].ptes { return true, false, d; }
        var e := dirs[src].ptes[i];
        var got, f := Kalloc();
        if !got {
          panicked := Bad(d);
          return panicked, false, d;
        }
        if e.frame >= NFRAMES { return true, false, d; }
        SetPage(f, mem[e.frame]);
        var rc: int;
        panicked, rc := Mappages(d, i, 1, f, e.w, e.u);
        if panicked { return true, false, d; }
        if rc != 0 {
          panicked := Bad(d);
          return panicked, false, d;
        }
        i := i + 1;
      }
      CopyFromStep(V(), src, d, i, sz);
      return false, true, d;
    }

    method Cowuvm(src: nat, sz: nat) returns (panicked: bool, ok: bool, d: nat)
      requires Valid() && src in dirs && KmapsOk(dataPage)
      modifies `freelist, `freePages, `dirs, refCnt, mem
      ensures Valid() && DupUvm(old(V()), src, sz, Cow) == DirResult(panicked, ok, d)
    {
      hide MapPages;
      hide SetupKvm;
      hide FreeVm;
      panicked, ok, d := Setupkvm();
      if panicked || !ok { return; }
      label made:
      var i := 0;
      while i * PGSIZE < sz
        invariant Valid() && src in dirs && d in dirs
        invariant CowFrom(old@made(V()), src, d, 0, sz) == CowFrom(V(), src, d, i, sz)
        decreases sz - i * PGSIZE
      {
        if i !in dirs[src].ptes { return true, false, d; }
        var e := dirs[src].ptes[i].(w := false);
        dirs := dirs[src := dirs[src].(ptes := dirs[src].ptes[i := e])];
        var rc: int;
        panicked, rc := Mappages(d, i, 1, e.frame, e.w, e.u);
        if panicked { return true, false, d; }
        if rc != 0 {
          panicked := Bad(d);
          return panicked, false, d;
        }
        if e.frame >= NFRAMES { return true, false, d; }
        IncRefCnt(e.frame);
        i := i + 1;
      }
      return false, true, d;
    }

    /** pgfltintr for a user page of directory d. */
    method Pgfltintr(d: nat, v: nat) returns (panicked: bool)
      requires Valid() && d in dirs
      modifies `freelist, `freePages, `dirs, refCnt, mem
      ensures Valid() && PageFault(old(V()), d, v) == if panicked then Panic else Ok(V())
    {
      if v / ENTRIES !in dirs[d].tables { return true; }
      panicked := false;
      if v in dirs[d].ptes && !dirs[d].ptes[v].w {
        var e := dirs[d].ptes[v];
        if e.frame >= NFRAMES { return true; }
        if AsInt(refCnt[e.frame]) > 1 {
          var ok, f := Kalloc();
          if ok {
            SetPage(f, mem[e.frame]);
          } else {
            // kalloc's null pointer is virtual address 0 of the faulting process
            if 0 !in dirs[d].ptes || dirs[d].ptes[0].frame >= NFRAMES { return true; }
            f := 0;
            SetPage(dirs[d].ptes[0].frame, mem[e.frame]);
          }
          DecRefCnt(e.frame);
          dirs := dirs[d := dirs[d].(ptes := dirs[d].ptes[v := Pte(f, true, e.u)])];
        } else {
          dirs := dirs[d := dirs[d].(ptes := dirs[d].ptes[v := e.(w := true)])];
        }
      }
    }

    // ---------------------------------------------------------------- proc.c

    ghost function StepOf(panicked: bool, ret: int): StepResult
      reads this, refCnt, mem
    {
      if panicked then Crash else Next(S(), ret)
    }

    /** fork: ret is the child's pid or -1. */
    method Fork(pid: nat) returns (panicked: bool, ret: int)
      requires Valid() && SysWf(S()) && pid in procs
      modifies this, refCnt, mem
      ensures Valid() && DoFork(old(S()), pid, Cow) == StepOf(panicked, ret)
    {
      hide DupUvm;
      if |procs| >= NPROC { return false, -1; }
      var child := nextPid;
      nextPid := nextPid + 1;
      var ok, stack := Kalloc();
      if !ok { return false, -1; }
      var d: nat;
      panicked, ok, d := Cowuvm(procs[pid].dir, procs[pid].sz);
      if panicked { return true, -1; }
      if !ok {
        ok := Kfree(stack);
        return !ok, -1;
      }
      procs := procs[child := Proc(procs[pid].sz, d, pid, false)];
      kstacks := kstacks[child := stack];
      return false, child;
    }

    /** growproc. */
    method Growproc(pid: nat, n: int) returns (panicked: bool, ret: int)
      requires Valid() && SysWf(S()) && pid in procs && IsInt(n)
      modifies this, refCnt, mem
      ensures Valid() && DoSbrk(old(S()), pid, n) == StepOf(panicked, ret)
    {
      hide AllocUvm;
      hide DeallocUvm;
      var d, sz := procs[pid].dir, procs[pid].sz;
      if n > 0 {
        panicked, sz := Allocuvm(d, sz, (sz + n) % UINT);
        if panicked || sz == 0 { return panicked, -1; }
      } else if n < 0 {
        panicked, sz := Deallocuvm(d, sz, (sz + n) % UINT);
        if panicked || sz == 0 { return panicked, -1; }
      }
      assert procs[pid := procs[pid].(sz := procs[pid].sz)] == procs;
      procs := procs[pid := procs[pid].(sz := sz)];
      return false, 0;
    }

    /** The memory part of wait on a zombie child. */
    method Reap(child: nat) returns (panicked: bool, ret: int)
      requires Valid() && SysWf(S()) && child in procs
      modifies this, refCnt, mem
      ensures Valid() && DoWait(old(S()), child) == StepOf(panicked, ret)
    {
      hide FreeVm;
      var ok := Kfree(kstacks[child]);
      if !ok { return true, -1; }
      panicked := Freevm(procs[child].dir);
      if panicked { return true, -1; }
      procs, kstacks := procs - {child}, kstacks - {child};
      return false, child;
    }
  }
}
