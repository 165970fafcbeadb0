/** The first reachable state: kinit, the boot stack, kvmalloc and userinit
    (P5_XV6_CoW_Fork/kernel/kalloc.c, vm.c, proc.c). */
module CowBoot {
  import opened Kalloc
  import opened Vm
  import opened VmProofs
  import opened CowFrames
  import opened CowSystem

  datatype Booted = Up(s: Sys) | BootPanic

  // memset(mem, 0, PGSIZE); memmove(mem, init, sz)
  function ImagePage(image: seq<Byte>): Page
    requires |image| < PGSIZE
  {
    image + seq(PGSIZE - |image|, i => 0)
  }

  // The memory a kernel finds: nothing free, nothing counted.
  function PowerOn(lo: nat, mem: seq<Page>): Kmem { Kmem(lo, [], seq(NFRAMES, i => 0), 0, mem) }

  /** inituvm: one zeroed page with the init code at address 0. */
  function InitUvm(vm: Vm, d: nat, image: seq<Byte>): Outcome
    requires vm.Wf() && d in vm.dirs && |image| < PGSIZE
  {
    match Alloc(vm.km)
    case OutOfMemory => Panic
    case Allocated(km, f) => MapPages(vm.(km := WritePage(km, f, ImagePage(image))), d, 0, 1, f, true, true)
  }

  /** userinit: process 1 with one page holding the init code. */
  function UserInit(vm: Vm, bootStack: nat, image: seq<Byte>): Booted
    requires vm.Wf() && KmapsOk(vm.dataPage) && |image| < PGSIZE
  {
    match Alloc(vm.km)
    case OutOfMemory => BootPanic
    case Allocated(km1, stack) =>
      match SetupKvm(vm.(km := km1))
      case DirPanic => BootPanic
      case NoDir(_) => BootPanic
      case NewDir(vm2, d) =>
        match InitUvm(vm2, d, image)
        case Ok(vm4) => Up(Sys(vm4, map[INITPID := Proc(PGSIZE, d, 0, false)], map[0 := bootStack, INITPID := stack], INITPID + 1))
        case _ => BootPanic
  }

  function Boot(lo: nat, mem: seq<Page>, dataPage: nat, image: seq<Byte>): Booted
    requires 0 < lo <= NFRAMES && |mem| == NFRAMES && KmapsOk(dataPage) && |image| < PGSIZE
  {
    var km0 := KinitFrom(PowerOn(lo, mem), lo);
    match Alloc(km0)
    case OutOfMemory => BootPanic
    case Allocated(km1, bootStack) =>
      match SetupKvm(Vm(km1, map[], dataPage))
      case NewDir(vm2, _) => UserInit(vm2, bootStack, image)
      case _ => BootPanic
  }

  lemma EmptyInv(km: Kmem, dataPage: nat)
    requires Acct(km, map[]) && KmapsOk(dataPage)
    ensures VmInv(Vm(km, map[], dataPage), map[])
  {
    assert AllHolds(Vm(km, map[], dataPage), map[]) == map[];
  }

  lemma InitUvmInv(vm: Vm, ext: Holds, d: nat, image: seq<Byte>, r: Outcome)
    requires VmInv(vm, ext) && vm.Wf() && d in vm.dirs && NoUser(vm, d) && 0 in vm.dirs[d].tables && |image| < PGSIZE
    requires r == InitUvm(vm, d, image) && !r.Panic?
    ensures r.Ok? && r.vm.Wf() && VmInv(r.vm, ext) && d in r.vm.dirs && 0 in r.vm.dirs[d].tables && KmapsOk(r.vm.dataPage)
    ensures UserView(r.vm, d) == map[0 := ImagePage(image)]
    ensures forall v | v < USERPAGES && v in r.vm.dirs[d].ptes :: v == 0
  {
    hide VmInv;
    hide MapPages;
    hide UserView;
    hide Keeps;
    var f, km3 := Alloc(vm.km).frame, Alloc(vm.km).km;
    var vm3 := vm.(km := WritePage(km3, f, ImagePage(image)));
    MapOneUser(vm3, d, 0, f, true, true);
    NewUserPteInv(vm, ext, d, 0, ImagePage(image), true, f, r.vm);
    NewUserPteView(vm, ext, d, 0, ImagePage(image), true, f, r.vm);
    InvAcct(r.vm, ext);
    EmptyView(vm, d);
  }

  lemma UserInitInv(vm: Vm, bootStack: nat, image: seq<Byte>, s: Sys)
    requires VmInv(vm, map[KStack(0) := bootStack]) && vm.Wf() && KmapsOk(vm.dataPage) && |image| < PGSIZE
    requires UserInit(vm, bootStack, image) == Up(s)
    ensures SysInv(s) && SysWf(s) && View(s) == map[INITPID := IProc(PGSIZE, map[0 := ImagePage(image)], 0, false)]
  {
    hide VmInv;
    hide ProcsOk;
    hide View;
    hide SetupKvm;
    hide UserView;
    hide InitUvm;
    hide Keeps;
    var ext := map[KStack(0) := bootStack];
    var stack := Alloc(vm.km).frame;
    var vm1 := vm.(km := Alloc(vm.km).km);
    AddStack(vm, ext, INITPID, stack);
    var ext1 := ext[KStack(INITPID) := stack];
    var r := SetupKvm(vm1);
    SetupKvmKeeps(vm1, ext1, r);
    var done := InitUvm(r.vm, r.dir, image);
    InitUvmInv(r.vm, ext1, r.dir, image, done);
    assert Stacked(s.kstacks) == ext1;
    FirstProcOk(s.vm, r.dir, s.procs);
    FirstView(s, r.dir, ImagePage(image));
  }

  lemma EmptyView(vm: Vm, d: nat)
    requires vm.Wf() && d in vm.dirs && NoUser(vm, d)
    ensures UserView(vm, d) == map[]
  {
  }

  lemma FirstProcOk(vm: Vm, d: nat, procs: map<nat, Proc>)
    requires d in vm.dirs && 0 in vm.dirs[d].tables && procs == map[INITPID := Proc(PGSIZE, d, 0, false)]
    requires forall v | v < USERPAGES && v in vm.dirs[d].ptes :: v == 0
    ensures ProcsOk(vm, procs)
  {
    assert PageRoundUp(PGSIZE) == 1;
  }

  lemma FirstView(s: Sys, d: nat, p: Page)
    requires SysWf(s) && s.procs == map[INITPID := Proc(PGSIZE, d, 0, false)] && d in s.vm.dirs && UserView(s.vm, d) == map[0 := p]
    ensures View(s) == map[INITPID := IProc(PGSIZE, map[0 := p], 0, false)]
  {
  }

  /** If the machine boots, it starts in a state satisfying the invariant, with one process
      that sees its init code followed by zeros and no missing page. */
  lemma BootInv(lo: nat, mem: seq<Page>, dataPage: nat, image: seq<Byte>)
    requires 0 < lo <= NFRAMES && |mem| == NFRAMES && KmapsOk(dataPage) && |image| < PGSIZE
    requires Boot(lo, mem, dataPage, image).Up?
    ensures var s := Boot(lo, mem, dataPage, image).s;
      SysInv(s) && SysWf(s) && Whole(View(s))
      && View(s) == map[INITPID := IProc(PGSIZE, map[0 := ImagePage(image)], 0, false)]
  {
    hide SysInv;
    hide View;
    hide SetupKvm;
    hide UserInit;
    hide Keeps;
    hide Acct;
    var km0 := KinitFrom(PowerOn(lo, mem), lo);
    KinitAcct(PowerOn(lo, mem), lo);
    EmptyInv(km0, dataPage);
    var bootStack := Alloc(km0).frame;
    AddStack(Vm(km0, map[], dataPage), map[], 0, bootStack);
    var vm1 := Vm(Alloc(km0).km, map[], dataPage);
    SetupKvmKeeps(vm1, map[KStack(0) := bootStack], SetupKvm(vm1));
    assert PageRoundUp(PGSIZE) == 1;
    UserInitInv(SetupKvm(vm1).vm, bootStack, image, Boot(lo, mem, dataPage, image).s);
  }

  // ---------------------------------------------------------------- when it boots

  // Two kernel stacks, two directories and the page of the init code.
  const BOOT_FRAMES: nat := 2 + 2 * DIR_FRAMES + 1

  lemma {:induction false} KinitFrames(km: Kmem, f: nat)
    requires km.Wf() && f <= NFRAMES
    ensures |KinitFrom(km, f).freelist| == |km.freelist| + (NFRAMES - f)
    decreases NFRAMES - f
  {
    if f < NFRAMES { KinitFrames(KfreeInit(km, f), f + 1); }
  }

  lemma InitUvmFrames(vm: Vm, d: nat, image: seq<Byte>, r: Outcome)
    requires vm.Wf() && d in vm.dirs && 0 in vm.dirs[d].tables && 0 !in vm.dirs[d].ptes && |image| < PGSIZE && r == InitUvm(vm, d, image)
    ensures r.Ok? <==> |vm.km.freelist| >= 1
    ensures r.Ok? ==> |r.vm.km.freelist| == |vm.km.freelist| - 1
  {
    if Alloc(vm.km).Allocated? {
      var f := Alloc(vm.km).frame;
      MapOneUser(vm.(km := WritePage(Alloc(vm.km).km, f, ImagePage(image))), d, 0, f, true, true);
    }
  }

  lemma UserInitFrames(vm: Vm, bootStack: nat, image: seq<Byte>, r: Booted)
    requires VmInv(vm, map[KStack(0) := bootStack]) && vm.Wf() && KmapsOk(vm.dataPage) && |image| < PGSIZE
    requires r == UserInit(vm, bootStack, image)
    ensures r.Up? <==> |vm.km.freelist| >= DIR_FRAMES + 2
    ensures r.Up? ==> |r.s.vm.km.freelist| == |vm.km.freelist| - (DIR_FRAMES + 2)
  {
    hide VmInv;
    hide SetupKvm;
    hide InitUvm;
    hide Keeps;
    var ext := map[KStack(0) := bootStack];
    if Alloc(vm.km).Allocated? {
      var stack := Alloc(vm.km).frame;
      var vm1 := vm.(km := Alloc(vm.km).km);
      AddStack(vm, ext, INITPID, stack);
      var ext1 := ext[KStack(INITPID) := stack];
      var made := SetupKvm(vm1);
      SetupKvmKeeps(vm1, ext1, made);
      SetupFrames(vm1, ext1);
      if made.NewDir? { InitUvmFrames(made.vm, made.dir, image, InitUvm(made.vm, made.dir, image)); }
    }
  }

  /** The machine boots exactly if it has 29 frames to manage; the others are then free. */
  lemma BootExact(lo: nat, mem: seq<Page>, dataPage: nat, image: seq<Byte>)
    requires 0 < lo <= NFRAMES && |mem| == NFRAMES && KmapsOk(dataPage) && |image| < PGSIZE
    ensures var r := Boot(lo, mem, dataPage, image);
      && (r.Up? <==> NFRAMES - lo >= BOOT_FRAMES)
      && (r.Up? ==> |r.s.vm.km.freelist| == NFRAMES - lo - BOOT_FRAMES)
  {
    hide VmInv;
    hide SetupKvm;
    hide UserInit;
    hide Keeps;
    hide Acct;
    hide KinitFrom;
    var km0 := KinitFrom(PowerOn(lo, mem), lo);
    KinitAcct(PowerOn(lo, mem), lo);
    KinitFrames(PowerOn(lo, mem), lo);
    EmptyInv(km0, dataPage);
    if Alloc(km0).Allocated? {
      var bootStack := Alloc(km0).frame;
      var ext := map[KStack(0) := bootStack];
      AddStack(Vm(km0, map[], dataPage), map[], 0, bootStack);
      var vm1 := Vm(Alloc(km0).km, map[], dataPage);
      var made := SetupKvm(vm1);
      SetupKvmKeeps(vm1, ext, made);
      SetupFrames(vm1, ext);
      if made.NewDir? { UserInitFrames(made.vm, bootStack, image, Boot(lo, mem, dataPage, image)); }
    }
  }
}
