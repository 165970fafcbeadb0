/** Page directories and user address spaces (P5_XV6_CoW_Fork/kernel/vm.c), as functions on
    values.  Every function returns the whole state, also when the original fails half-way
    and leaves part of its work behind. */
module Vm {
  import opened Kalloc

  const ENTRIES: nat := 1024            // entries per page table and per page directory
  const USERTOP: nat := 0xA_0000

  // A present page-table entry.  Absent entries are not in the map.
  datatype Pte = Pte(frame: nat, w: bool, u: bool)

  // tables: page-directory index -> page-table frame; ptes: virtual page -> entry.
  datatype PageDir = PageDir(tables: map<nat, nat>, ptes: map<nat, Pte>)

  // dirs: the live page directories, by the frame that holds them; dataPage: the linker's
  // first kernel data page.
  datatype Vm = Vm(km: Kmem, dirs: map<nat, PageDir>, dataPage: nat)
  {
    predicate Wf() { km.Wf() }
  }

  datatype Outcome = Ok(vm: Vm) | Fail(vm: Vm) | Panic
  datatype DirOutcome = NewDir(vm: Vm, dir: nat) | NoDir(vm: Vm) | DirPanic
  // sz: what allocuvm/deallocuvm return (0 is also their error value).
  datatype SizeOutcome = Size(vm: Vm, sz: nat) | SizePanic

  function SetPte(vm: Vm, d: nat, v: nat, e: Pte): Vm
    requires d in vm.dirs
  {
    vm.(dirs := vm.dirs[d := vm.dirs[d].(ptes := vm.dirs[d].ptes[v := e])])
  }

  function ClearPte(vm: Vm, d: nat, v: nat): Vm
    requires d in vm.dirs
  {
    vm.(dirs := vm.dirs[d := vm.dirs[d].(ptes := vm.dirs[d].ptes - {v})])
  }

  // The same directories exist; the kernel layout is the same.
  predicate SameShape(vm: Vm, vm1: Vm) { vm1.dirs.Keys == vm.dirs.Keys && vm1.dataPage == vm.dataPage }

  /** walkpgdir(pgdir, va, 1): make sure the page table covering page v exists. */
  function WalkCreate(vm: Vm, d: nat, v: nat): (r: Outcome)
    requires vm.Wf() && d in vm.dirs
    ensures !r.Panic? && r.vm.Wf() && SameShape(vm, r.vm)
  {
    if v / ENTRIES in vm.dirs[d].tables then Ok(vm)
    else match Alloc(vm.km)
      case OutOfMemory => Fail(vm)
      case Allocated(km, f) =>
        Ok(vm.(km := WritePage(km, f, ZeroPage()),
               dirs := vm.dirs[d := vm.dirs[d].(tables := vm.dirs[d].tables[v / ENTRIES := f])]))
  }

  /** mappages for n pages from v on, to consecutive frames from f on. */
  function MapPages(vm: Vm, d: nat, v: nat, n: nat, f: nat, w: bool, u: bool): (r: Outcome)
    requires vm.Wf() && d in vm.dirs
    ensures !r.Panic? ==> r.vm.Wf() && SameShape(vm, r.vm)
    decreases n
  {
    if n == 0 then Ok(vm)
    else match WalkCreate(vm, d, v)
      case Fail(vm1) => Fail(vm1)
      case Ok(vm1) =>
        if v in vm1.dirs[d].ptes then Panic  // "remap"
        else MapPages(SetPte(vm1, d, v, Pte(f, w, u)), d, v + 1, n - 1, f + 1, w, u)
  }

  // The kernel mappings: first page, one past the last page, writable.
  datatype Kmap = Kmap(lo: nat, hi: nat, w: bool)

  function KmapEntry(dataPage: nat, i: nat): Kmap
  {
    if i == 0 then Kmap(USERPAGES, 0x100, true)             // I/O space
    else if i == 1 then Kmap(0x100, dataPage, false)        // kernel text, rodata
    else if i == 2 then Kmap(dataPage, NFRAMES, true)       // kernel data, memory
    else Kmap(0xFE000, 0x10_0000, true)                     // devices
  }

  predicate KmapsOk(dataPage: nat) { 0x100 < dataPage < NFRAMES }

  function SetupFrom(vm: Vm, d: nat, i: nat): (r: DirOutcome)
    requires vm.Wf() && d in vm.dirs && KmapsOk(vm.dataPage) && i <= 4
    ensures !r.DirPanic? ==> r.vm.Wf() && SameShape(vm, r.vm)
    ensures r.NewDir? ==> r.dir == d
    decreases 4 - i
  {
    if i == 4 then NewDir(vm, d)
    else
      var k := KmapEntry(vm.dataPage, i);
      match MapPages(vm, d, k.lo, k.hi - k.lo, k.lo, k.w, false)
      case Panic => DirPanic
      case Fail(vm1) => NoDir(vm1)
      case Ok(vm1) => SetupFrom(vm1, d, i + 1)
  }

  /** setupkvm.  When it fails half-way, what it allocated stays behind. */
  function SetupKvm(vm: Vm): (r: DirOutcome)
    requires vm.Wf() && KmapsOk(vm.dataPage)
    ensures !r.DirPanic? ==> r.vm.Wf() && vm.dirs.Keys <= r.vm.dirs.Keys && r.vm.dataPage == vm.dataPage
    ensures r.NewDir? ==> r.dir in r.vm.dirs
  {
    match Alloc(vm.km)
    case OutOfMemory => NoDir(vm)
    case Allocated(km, d) =>
      SetupFrom(vm.(km := WritePage(km, d, ZeroPage()), dirs := vm.dirs[d := PageDir(map[], map[])]), d, 0)
  }

  /** deallocuvm's loop from page v up to byte oldsz. */
  function DeallocFrom(vm: Vm, d: nat, v: nat, oldsz: nat): (r: Outcome)
    requires vm.Wf() && d in vm.dirs
    ensures !r.Fail? && (r.Ok? ==> r.vm.Wf() && SameShape(vm, r.vm))
    decreases oldsz - v * PGSIZE
  {
    if v * PGSIZE >= oldsz then Ok(vm)
    else if v !in vm.dirs[d].ptes then DeallocFrom(vm, d, v + 1, oldsz)
    else
      var f := vm.dirs[d].ptes[v].frame;
      if f == 0 then Panic
      else match Free(vm.km, f)
        case FreePanic => Panic
        case Freed(km) => DeallocFrom(ClearPte(vm.(km := km), d, v), d, v + 1, oldsz)
  }

  function DeallocUvm(vm: Vm, d: nat, oldsz: nat, newsz: nat): (r: SizeOutcome)
    requires vm.Wf() && d in vm.dirs
    ensures r.Size? ==> r.vm.Wf() && SameShape(vm, r.vm)
  {
    if newsz >= oldsz then Size(vm, oldsz)
    else match DeallocFrom(vm, d, PageRoundUp(newsz), oldsz)
      case Panic => SizePanic
      case Ok(vm1) => Size(vm1, newsz)
  }

  /** allocuvm's loop from page v on. */
  function AllocFrom(vm: Vm, d: nat, v: nat, oldsz: nat, newsz: nat): (r: SizeOutcome)
    requires vm.Wf() && d in vm.dirs
    ensures r.Size? ==> r.vm.Wf() && SameShape(vm, r.vm)
    decreases newsz - v * PGSIZE
  {
    if v * PGSIZE >= newsz then Size(vm, newsz)
    else match Alloc(vm.km)
      case OutOfMemory =>
        (match DeallocUvm(vm, d, newsz, oldsz)
         case SizePanic => SizePanic
         case Size(vm1, _) => Size(vm1, 0))
      case Allocated(km, f) =>
        match MapPages(vm.(km := WritePage(km, f, ZeroPage())), d, v, 1, f, true, true)
        case Panic => SizePanic
        case Ok(vm1) => AllocFrom(vm1, d, v + 1, oldsz, newsz)
        case Fail(vm1) => AllocFrom(vm1, d, v + 1, oldsz, newsz)  // the result is not looked at
  }

  function AllocUvm(vm: Vm, d: nat, oldsz: nat, newsz: nat): (r: SizeOutcome)
    requires vm.Wf() && d in vm.dirs
    ensures r.Size? ==> r.vm.Wf() && SameShape(vm, r.vm)
  {
    if newsz > USERTOP then Size(vm, 0)
    else if newsz < oldsz then Size(vm, oldsz)
    else AllocFrom(vm, d, PageRoundUp(oldsz), oldsz, newsz)
  }

  /** freevm's loop over the page directory. */
  function FreeTables(km: Kmem, tables: map<nat, nat>, i: nat): (r: FreeResult)
    requires km.Wf()
    ensures r.Freed? ==> r.km.Wf()
    decreases ENTRIES - i
  {
    if i >= ENTRIES then Freed(km)
    else if i !in tables then FreeTables(km, tables, i + 1)
    else match Free(km, tables[i])
      case FreePanic => FreePanic
      case Freed(km1) => FreeTables(km1, tables, i + 1)
  }

  /** freevm: user pages, page tables, then the directory itself. */
  function FreeVm(vm: Vm, d: nat): (r: Outcome)
    requires vm.Wf() && d in vm.dirs
    ensures !r.Fail? && (r.Ok? ==> r.vm.Wf())
  {
    match DeallocUvm(vm, d, USERTOP, 0)
    case SizePanic => Panic
    case Size(vm1, _) =>
      match FreeTables(vm1.km, vm1.dirs[d].tables, 0)
      case FreePanic => Panic
      case Freed(km2) =>
        match Free(km2, d)
        case FreePanic => Panic
        case Freed(km3) => Ok(vm1.(km := km3, dirs := vm1.dirs - {d}))
  }

  function FreeVmFail(vm: Vm, d: nat): (r: DirOutcome)
    requires vm.Wf() && d in vm.dirs
    ensures !r.DirPanic? ==> r.vm.Wf()
  {
    match FreeVm(vm, d) case Panic => DirPanic case Ok(vm1) => NoDir(vm1)
  }

  /** copyuvm's loop: the eager copy. */
  function CopyFrom(vm: Vm, src: nat, d: nat, v: nat, sz: nat): (r: DirOutcome)
    requires vm.Wf() && src in vm.dirs && d in vm.dirs
    ensures !r.DirPanic? ==> r.vm.Wf()
    decreases sz - v * PGSIZE
  {
    if v * PGSIZE >= sz then NewDir(vm, d)
    else if v !in vm.dirs[src].ptes then DirPanic
    else
      var e := vm.dirs[src].ptes[v];
      match Alloc(vm.km)
      case OutOfMemory => FreeVmFail(vm, d)
      case Allocated(km, f) =>
        if e.frame >= NFRAMES then DirPanic  // no such frame
        else match MapPages(vm.(km := WritePage(km, f, km.mem[e.frame])), d, v, 1, f, e.w, e.u)
          case Panic => DirPanic
          case Fail(vm1) => FreeVmFail(vm1, d)
          case Ok(vm1) => CopyFrom(vm1, src, d, v + 1, sz)
  }

  /** cowuvm's loop: share every frame, read-only on both sides, one more count each. */
  function CowFrom(vm: Vm, src: nat, d: nat, v: nat, sz: nat): (r: DirOutcome)
    requires vm.Wf() && src in vm.dirs && d in vm.dirs
    ensures !r.DirPanic? ==> r.vm.Wf()
    decreases sz - v * PGSIZE
  {
    if v * PGSIZE >= sz then NewDir(vm, d)
    else if v !in vm.dirs[src].ptes then DirPanic
    else
      var e := vm.dirs[src].ptes[v].(w := false);
      match MapPages(SetPte(vm, src, v, e), d, v, 1, e.frame, e.w, e.u)
      case Panic => DirPanic
      case Fail(vm1) => FreeVmFail(vm1, d)
      case Ok(vm1) =>
        if e.frame >= NFRAMES then DirPanic  // no such frame
        else CowFrom(vm1.(km := Inc(vm1.km, e.frame)), src, d, v + 1, sz)
  }

  // The two ways to duplicate an address space.
  datatype Policy = Eager | Cow

  /** copyuvm (Eager) or cowuvm (Cow). */
  function DupUvm(vm: Vm, src: nat, sz: nat, policy: Policy): (r: DirOutcome)
    requires vm.Wf() && src in vm.dirs && KmapsOk(vm.dataPage)
    ensures !r.DirPanic? ==> r.vm.Wf()
  {
    match SetupKvm(vm)
    case DirPanic => DirPanic
    case NoDir(vm1) => NoDir(vm1)
    case NewDir(vm1, d) =>
      if policy.Eager? then CopyFrom(vm1, src, d, 0, sz)
      else CowFrom(vm1, src, d, 0, sz)
  }

  /** pgfltintr for a user page.  The result of kalloc is not checked: without a free frame
      the copy goes to virtual address 0 of the faulting process and the entry ends up
      pointing at physical page 0. */
  function PageFault(vm: Vm, d: nat, v: nat): (r: Outcome)
    requires vm.Wf() && d in vm.dirs
    ensures r.Ok? ==> r.vm.Wf() && SameShape(vm, r.vm)
  {
    if v / ENTRIES !in vm.dirs[d].tables then Panic
    else if v !in vm.dirs[d].ptes || vm.dirs[d].ptes[v].w then Ok(vm)
    else
      var e := vm.dirs[d].ptes[v];
      if e.frame >= NFRAMES then Panic  // no such frame
      else if AsInt(vm.km.refcnt[e.frame]) > 1 then
        match Alloc(vm.km)
        case Allocated(km, f) =>
          var km1 := WritePage(km, f, km.mem[e.frame]);
          Ok(SetPte(vm.(km := Dec(km1, e.frame)), d, v, Pte(f, true, e.u)))
        case OutOfMemory =>
          if 0 !in vm.dirs[d].ptes || vm.dirs[d].ptes[0].frame >= NFRAMES then Panic
          else
            var km1 := WritePage(vm.km, vm.dirs[d].ptes[0].frame, vm.km.mem[e.frame]);
            Ok(SetPte(vm.(km := Dec(km1, e.frame)), d, v, Pte(0, true, e.u)))
      else Ok(SetPte(vm, d, v, e.(w := true)))
  }
}
