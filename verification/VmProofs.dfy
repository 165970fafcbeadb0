/** What the virtual-memory functions keep: the reference count of every frame is its number
    of holders, writable user pages are never shared, and operations on one address space do
    not change what another one reads. */
module VmProofs {
  import opened Kalloc
  import opened Vm

  ghost function Tokens(dirs: map<nat, PageDir>): set<Holder>
  {
    (set d, v | d in dirs && v in dirs[d].ptes && v < USERPAGES :: UserPage(d, v))
    + (set d, x | d in dirs && x in dirs[d].tables :: TablePage(d, x))
    + (set d | d in dirs :: DirPage(d))
  }

  ghost predicate HeldBy(dirs: map<nat, PageDir>, r: Holder)
  {
    match r
    case UserPage(d, v) => d in dirs && v in dirs[d].ptes && v < USERPAGES
    case TablePage(d, x) => d in dirs && x in dirs[d].tables
    case DirPage(d) => d in dirs
    case KStack(_) => false
  }

  ghost function FrameOf(dirs: map<nat, PageDir>, r: Holder): nat
    requires HeldBy(dirs, r)
  {
    match r
    case UserPage(d, v) => dirs[d].ptes[v].frame
    case TablePage(d, x) => dirs[d].tables[x]
    case DirPage(d) => d
  }

  /** All references held by page directories. */
  ghost function DirHolds(dirs: map<nat, PageDir>): (h: Holds)
    ensures forall r :: r in h <==> HeldBy(dirs, r)
    ensures forall r | r in h :: h[r] == FrameOf(dirs, r)
  {
    map r | r in Tokens(dirs) :: FrameOf(dirs, r)
  }

  // The holders outside page directories: kernel stacks.
  ghost predicate Stacks(ext: Holds) { forall r | r in ext :: r.KStack? }

  ghost function AllHolds(vm: Vm, ext: Holds): Holds { DirHolds(vm.dirs) + ext }

  /** A writable user PTE is its frame's only reference. */
  ghost predicate WritableUnshared(vm: Vm, h: Holds) {
    forall d, v | d in vm.dirs && v in vm.dirs[d].ptes && v < USERPAGES && vm.dirs[d].ptes[v].w ::
      Refs(h, vm.dirs[d].ptes[v].frame) == {UserPage(d, v)}
  }

  ghost predicate DirOk(p: PageDir) {
    && (forall x | x in p.tables :: x < ENTRIES)
    && (forall v | v in p.ptes :: v < ENTRIES * ENTRIES && v / ENTRIES in p.tables)
    && (forall v | v in p.ptes && v < USERPAGES :: p.ptes[v].u)
  }

  ghost predicate DirsOk(dirs: map<nat, PageDir>) {
    forall d | d in dirs :: d < NFRAMES && DirOk(dirs[d])
  }

  ghost predicate VmInv(vm: Vm, ext: Holds) {
    && Stacks(ext) && KmapsOk(vm.dataPage)
    && Acct(vm.km, AllHolds(vm, ext))
    && WritableUnshared(vm, AllHolds(vm, ext))
    && DirsOk(vm.dirs)
  }

  lemma InvAcct(vm: Vm, ext: Holds)
    requires VmInv(vm, ext)
    ensures Stacks(ext) && Acct(vm.km, AllHolds(vm, ext)) && vm.Wf() && KmapsOk(vm.dataPage)
  {
  }

  lemma UserFramesManaged(vm: Vm, ext: Holds, d: nat, v: nat)
    requires VmInv(vm, ext) && d in vm.dirs && v in vm.dirs[d].ptes && v < USERPAGES
    ensures vm.km.Managed(vm.dirs[d].ptes[v].frame)
    ensures UserPage(d, v) in Refs(AllHolds(vm, ext), vm.dirs[d].ptes[v].frame)
  {
    assert UserPage(d, v) in AllHolds(vm, ext);
  }

  /** What a process with page directory d sees: its present user pages. */
  ghost function UserView(vm: Vm, d: nat): map<nat, Page>
    requires vm.Wf() && d in vm.dirs
  {
    map v | v in vm.dirs[d].ptes && v < USERPAGES && vm.dirs[d].ptes[v].frame < NFRAMES
      :: vm.km.mem[vm.dirs[d].ptes[v].frame]
  }

  // The same tables and the same frames behind the same pages (flags may differ).
  ghost predicate SameFrames(p: PageDir, q: PageDir) {
    p.tables == q.tables && p.ptes.Keys == q.ptes.Keys
    && forall v | v in p.ptes :: p.ptes[v].frame == q.ptes[v].frame && p.ptes[v].u == q.ptes[v].u
  }

  /** Every directory outside `except` keeps its frames and its visible memory. */
  ghost predicate Keeps(vm: Vm, vm1: Vm, except: set<nat>) {
    vm.Wf() && vm1.Wf() && vm1.km.lo == vm.km.lo &&
    forall d | d in vm.dirs && d !in except ::
      d in vm1.dirs && SameFrames(vm.dirs[d], vm1.dirs[d]) && UserView(vm1, d) == UserView(vm, d)
  }

  lemma KeepsTrans(a: Vm, b: Vm, c: Vm, except: set<nat>)
    requires Keeps(a, b, except) && Keeps(b, c, except)
    ensures Keeps(a, c, except)
  {
  }

  // Directories with the same entries, over frames with the same contents, read the same.
  lemma ViewsKept(vm: Vm, vm1: Vm)
    requires vm.Wf() && vm1.Wf()
    requires forall d | d in vm.dirs :: d in vm1.dirs && vm1.dirs[d].ptes == vm.dirs[d].ptes
    requires forall d, v | d in vm.dirs && v in vm.dirs[d].ptes && v < USERPAGES && vm.dirs[d].ptes[v].frame < NFRAMES ::
               vm1.km.mem[vm.dirs[d].ptes[v].frame] == vm.km.mem[vm.dirs[d].ptes[v].frame]
    ensures forall d | d in vm.dirs :: UserView(vm1, d) == UserView(vm, d)
  {
  }

  // ---------------------------------------------------------------- one table update each

  // How each update of a directory changes the holders.  ext: the holders outside directories.

  lemma HoldsAdd(dirs: map<nat, PageDir>, dirs1: map<nat, PageDir>, ext: Holds, t: Holder, f: nat)
    requires t !in ext
    requires forall r :: HeldBy(dirs1, r) <==> HeldBy(dirs, r) || r == t
    requires forall r | HeldBy(dirs1, r) :: FrameOf(dirs1, r) == if r == t then f else FrameOf(dirs, r)
    ensures DirHolds(dirs1) + ext == (DirHolds(dirs) + ext)[t := f]
  {
    hide HeldBy;
    hide FrameOf;
    assert DirHolds(dirs1) == DirHolds(dirs)[t := f];
  }

  lemma HoldsRemove(dirs: map<nat, PageDir>, dirs1: map<nat, PageDir>, ext: Holds, t: Holder)
    requires t !in ext
    requires forall r :: HeldBy(dirs1, r) <==> HeldBy(dirs, r) && r != t
    requires forall r | HeldBy(dirs1, r) :: FrameOf(dirs1, r) == FrameOf(dirs, r)
    ensures DirHolds(dirs1) + ext == (DirHolds(dirs) + ext) - {t}
  {
    hide HeldBy;
    hide FrameOf;
    assert DirHolds(dirs1) == DirHolds(dirs) - {t};
  }

  lemma HoldsNewTable(dirs: map<nat, PageDir>, ext: Holds, d: nat, x: nat, f: nat)
    requires Stacks(ext) && d in dirs && x !in dirs[d].tables
    ensures DirHolds(dirs[d := dirs[d].(tables := dirs[d].tables[x := f])]) + ext
         == (DirHolds(dirs) + ext)[TablePage(d, x) := f]
  {
    hide DirHolds;
    HoldsAdd(dirs, dirs[d := dirs[d].(tables := dirs[d].tables[x := f])], ext, TablePage(d, x), f);
  }

  lemma HoldsNewUserPte(dirs: map<nat, PageDir>, ext: Holds, d: nat, v: nat, e: Pte)
    requires Stacks(ext) && d in dirs && v < USERPAGES
    ensures DirHolds(dirs[d := dirs[d].(ptes := dirs[d].ptes[v := e])]) + ext
         == (DirHolds(dirs) + ext)[UserPage(d, v) := e.frame]
  {
    hide DirHolds;
    HoldsAdd(dirs, dirs[d := dirs[d].(ptes := dirs[d].ptes[v := e])], ext, UserPage(d, v), e.frame);
  }

  lemma HoldsKernelPte(dirs: map<nat, PageDir>, d: nat, v: nat, e: Pte)
    requires d in dirs && v >= USERPAGES
    ensures DirHolds(dirs[d := dirs[d].(ptes := dirs[d].ptes[v := e])]) == DirHolds(dirs)
  {
    var dirs1 := dirs[d := dirs[d].(ptes := dirs[d].ptes[v := e])];
    assert forall r :: HeldBy(dirs1, r) <==> HeldBy(dirs, r);
  }

  lemma HoldsClear(dirs: map<nat, PageDir>, ext: Holds, d: nat, v: nat)
    requires Stacks(ext) && d in dirs && v < USERPAGES
    ensures DirHolds(dirs[d := dirs[d].(ptes := dirs[d].ptes - {v})]) + ext
         == (DirHolds(dirs) + ext) - {UserPage(d, v)}
  {
    hide DirHolds;
    HoldsRemove(dirs, dirs[d := dirs[d].(ptes := dirs[d].ptes - {v})], ext, UserPage(d, v));
  }

  lemma HoldsNewDir(dirs: map<nat, PageDir>, ext: Holds, d: nat)
    requires Stacks(ext) && d !in dirs
    ensures DirHolds(dirs[d := PageDir(map[], map[])]) + ext == (DirHolds(dirs) + ext)[DirPage(d) := d]
  {
    hide DirHolds;
    HoldsAdd(dirs, dirs[d := PageDir(map[], map[])], ext, DirPage(d), d);
  }

  lemma HoldsSameFrames(dirs: map<nat, PageDir>, dirs1: map<nat, PageDir>)
    requires dirs.Keys == dirs1.Keys
    requires forall d | d in dirs :: SameFrames(dirs[d], dirs1[d])
    ensures DirHolds(dirs) == DirHolds(dirs1)
  {
    assert forall r :: HeldBy(dirs1, r) <==> HeldBy(dirs, r);
  }

  // ---------------------------------------------------------------- walkpgdir, mappages

  lemma WalkKeeps(vm: Vm, ext: Holds, d: nat, v: nat, r: Outcome)
    requires VmInv(vm, ext) && d in vm.dirs && v < ENTRIES * ENTRIES && r == WalkCreate(vm, d, v)
    ensures VmInv(r.vm, ext) && Keeps(vm, r.vm, {d})
    ensures r.vm.dirs[d].ptes == vm.dirs[d].ptes && UserView(r.vm, d) == UserView(vm, d)
    ensures vm.dirs[d].tables.Keys <= r.vm.dirs[d].tables.Keys
    ensures r.Ok? ==> v / ENTRIES in r.vm.dirs[d].tables
    ensures v / ENTRIES in vm.dirs[d].tables ==> r == Ok(vm)
  {
    assert vm.Wf();
    if v / ENTRIES !in vm.dirs[d].tables && Alloc(vm.km).Allocated? {
      NewTableInv(vm, ext, d, v / ENTRIES, Alloc(vm.km).frame, r.vm);
      NewTableKeeps(vm, ext, d, v / ENTRIES, r.vm);
    } else {
      assert r.vm == vm;
    }
  }

  lemma NewTableKeeps(vm: Vm, ext: Holds, d: nat, x: nat, vm1: Vm)
    requires VmInv(vm, ext) && vm.Wf() && d in vm.dirs && x !in vm.dirs[d].tables && Alloc(vm.km).Allocated?
    requires var f, km1 := Alloc(vm.km).frame, Alloc(vm.km).km;
      vm1 == vm.(km := WritePage(km1, f, ZeroPage()),
                 dirs := vm.dirs[d := vm.dirs[d].(tables := vm.dirs[d].tables[x := f])])
    ensures Keeps(vm, vm1, {d}) && UserView(vm1, d) == UserView(vm, d)
  {
    hide VmInv;
    hide Acct;
    InvAcct(vm, ext);
    AllocFresh(vm.km, AllHolds(vm, ext));
    UserFramesApart(vm, ext, Alloc(vm.km).frame);
    ViewsKept(vm, vm1);
  }

  lemma DirOkNewTable(p: PageDir, x: nat, f: nat)
    requires DirOk(p) && x < ENTRIES
    ensures DirOk(p.(tables := p.tables[x := f]))
  {
  }

  lemma NewTableInv(vm: Vm, ext: Holds, d: nat, x: nat, f: nat, vm1: Vm)
    requires VmInv(vm, ext) && vm.Wf() && d in vm.dirs && x < ENTRIES && x !in vm.dirs[d].tables
    requires Alloc(vm.km).Allocated? && f == Alloc(vm.km).frame
    requires vm1 == vm.(km := WritePage(Alloc(vm.km).km, f, ZeroPage()),
                        dirs := vm.dirs[d := vm.dirs[d].(tables := vm.dirs[d].tables[x := f])])
    ensures VmInv(vm1, ext)
  {
    hide Acct;
    hide DirOk;
    var h, km1 := AllHolds(vm, ext), Alloc(vm.km).km;
    var t := TablePage(d, x);
    assert t !in h;
    DirOkNewTable(vm.dirs[d], x, f);
    AllocFresh(vm.km, h);
    AllocAcct(vm.km, h, t);
    WriteAcct(km1, h[t := f], f, ZeroPage());
    HoldsNewTable(vm.dirs, ext, d, x, f);
    UnsharedAfterKernelHold(vm, vm1, ext, t, f);
  }

  // A frame nobody holds is behind no user page.
  lemma UserFramesApart(vm: Vm, ext: Holds, f: nat)
    requires VmInv(vm, ext) && Refs(AllHolds(vm, ext), f) == {}
    ensures forall d, v | d in vm.dirs && v in vm.dirs[d].ptes && v < USERPAGES ::
              vm.dirs[d].ptes[v].frame != f && vm.dirs[d].ptes[v].frame < NFRAMES
  {
    forall d, v | d in vm.dirs && v in vm.dirs[d].ptes && v < USERPAGES
      ensures vm.dirs[d].ptes[v].frame != f && vm.dirs[d].ptes[v].frame < NFRAMES
    {
      UserFramesManaged(vm, ext, d, v);
    }
  }

  // Giving an unheld frame to a kernel holder leaves every writable user page unshared.
  lemma UnsharedAfterKernelHold(vm: Vm, vm1: Vm, ext: Holds, t: Holder, f: nat)
    requires VmInv(vm, ext) && Refs(AllHolds(vm, ext), f) == {} && t !in AllHolds(vm, ext)
    requires forall d | d in vm1.dirs :: (d in vm.dirs && vm1.dirs[d].ptes == vm.dirs[d].ptes) || vm1.dirs[d].ptes == map[]
    ensures WritableUnshared(vm1, AllHolds(vm, ext)[t := f])
  {
    var h := AllHolds(vm, ext);
    forall d, v | d in vm1.dirs && v in vm1.dirs[d].ptes && v < USERPAGES && vm1.dirs[d].ptes[v].w
      ensures Refs(h[t := f], vm1.dirs[d].ptes[v].frame) == {UserPage(d, v)}
    {
      var g := vm.dirs[d].ptes[v].frame;
      UserFramesManaged(vm, ext, d, v);
      RefsAdd(h, t, f, g);
    }
  }

  // Pages v .. v+n-1 are unmapped.
  ghost predicate Unmapped(vm: Vm, d: nat, v: nat, n: nat)
    requires d in vm.dirs
  {
    forall x | v <= x < v + n :: x !in vm.dirs[d].ptes
  }

  // The user part of a directory is as before.
  ghost predicate SameUser(vm: Vm, vm1: Vm, d: nat)
    requires vm.Wf() && vm1.Wf() && d in vm.dirs && d in vm1.dirs
  {
    && UserView(vm1, d) == UserView(vm, d)
    && (forall x | x < USERPAGES :: x in vm1.dirs[d].ptes <==> x in vm.dirs[d].ptes)
    && vm.dirs[d].tables.Keys <= vm1.dirs[d].tables.Keys
  }

  // Writing a kernel PTE: holders and user pages are as before.
  lemma KernelPteKeeps(vm: Vm, ext: Holds, d: nat, v: nat, e: Pte, vm1: Vm)
    requires VmInv(vm, ext) && vm.Wf() && d in vm.dirs && USERPAGES <= v < ENTRIES * ENTRIES
    requires v / ENTRIES in vm.dirs[d].tables && vm1 == SetPte(vm, d, v, e)
    ensures VmInv(vm1, ext)
  {
    hide Acct;
    hide Refs;
    HoldsKernelPte(vm.dirs, d, v, e);
    assert DirOk(vm1.dirs[d]);
  }

  lemma KernelPteView(vm: Vm, d: nat, v: nat, e: Pte, vm1: Vm)
    requires vm.Wf() && d in vm.dirs && USERPAGES <= v && vm1 == SetPte(vm, d, v, e)
    ensures Keeps(vm, vm1, {d}) && SameUser(vm, vm1, d)
  {
  }

  /** A step that only adds kernel mappings to directory d. */
  ghost predicate Grown(vm: Vm, vm1: Vm, ext: Holds, d: nat) {
    && vm.Wf() && vm1.Wf() && d in vm.dirs && d in vm1.dirs
    && VmInv(vm1, ext) && Keeps(vm, vm1, {d}) && SameUser(vm, vm1, d)
  }

  lemma GrownTrans(a: Vm, b: Vm, c: Vm, ext: Holds, d: nat)
    requires Grown(a, b, ext, d) && Grown(b, c, ext, d)
    ensures Grown(a, c, ext, d)
  {
    hide VmInv;
    hide UserView;
    KeepsTrans(a, b, c, {d});
  }

  lemma MapKernelStep(vm: Vm, ext: Holds, d: nat, v: nat, f: nat, w: bool, walked: Outcome)
    requires VmInv(vm, ext) && d in vm.dirs && USERPAGES <= v < ENTRIES * ENTRIES
    requires walked == WalkCreate(vm, d, v)
    ensures Grown(vm, walked.vm, ext, d) && walked.vm.dirs[d].ptes == vm.dirs[d].ptes
    ensures walked.Ok? ==> Grown(vm, SetPte(walked.vm, d, v, Pte(f, w, false)), ext, d)
    ensures walked.Ok? ==> v / ENTRIES in walked.vm.dirs[d].tables
  {
    WalkKeeps(vm, ext, d, v, walked);
    assert Grown(vm, walked.vm, ext, d);
    if walked.Ok? {
      var vm2 := SetPte(walked.vm, d, v, Pte(f, w, false));
      KernelPteKeeps(walked.vm, ext, d, v, Pte(f, w, false), vm2);
      KernelPteView(walked.vm, d, v, Pte(f, w, false), vm2);
      assert Grown(walked.vm, SetPte(walked.vm, d, v, Pte(f, w, false)), ext, d);
      GrownTrans(vm, walked.vm, SetPte(walked.vm, d, v, Pte(f, w, false)), ext, d);
    }
  }

  lemma GrownRefl(vm: Vm, ext: Holds, d: nat)
    requires VmInv(vm, ext) && d in vm.dirs
    ensures Grown(vm, vm, ext, d)
  {
  }

  lemma GrownFacts(vm: Vm, vm1: Vm, ext: Holds, d: nat)
    requires Grown(vm, vm1, ext, d)
    ensures VmInv(vm1, ext) && vm1.Wf() && d in vm.dirs && d in vm1.dirs && KmapsOk(vm1.dataPage)
    ensures vm.dirs[d].tables.Keys <= vm1.dirs[d].tables.Keys
  {
  }

  lemma UnmappedNext(vm: Vm, vm1: Vm, d: nat, v: nat, n: nat, e: Pte)
    requires d in vm.dirs && d in vm1.dirs && vm1.dirs[d].ptes == vm.dirs[d].ptes[v := e]
    requires n > 0 && Unmapped(vm, d, v, n)
    ensures Unmapped(vm1, d, v + 1, n - 1)
  {
  }

  /** Mapping unmapped kernel pages never panics and touches no user memory. */
  lemma {:induction false} MapKernel(vm: Vm, ext: Holds, d: nat, v: nat, n: nat, f: nat, w: bool, r: Outcome)
    requires VmInv(vm, ext) && vm.Wf() && d in vm.dirs && USERPAGES <= v && v + n <= ENTRIES * ENTRIES
    requires Unmapped(vm, d, v, n) && r == MapPages(vm, d, v, n, f, w, false)
    ensures !r.Panic? && Grown(vm, r.vm, ext, d)
    ensures forall x | x in r.vm.dirs[d].ptes :: x in vm.dirs[d].ptes || v <= x < v + n
    ensures r.Ok? && n > 0 ==> v / ENTRIES in r.vm.dirs[d].tables
    decreases n
  {
    hide VmInv;
    hide Grown;
    if n == 0 {
      GrownRefl(vm, ext, d);
    } else {
      var walked := WalkCreate(vm, d, v);
      MapKernelStep(vm, ext, d, v, f, w, walked);
      if walked.Ok? {
        var e := Pte(f, w, false);
        var vm2 := SetPte(walked.vm, d, v, e);
        UnmappedNext(vm, vm2, d, v, n, e);
        GrownFacts(vm, vm2, ext, d);
        MapKernel(vm2, ext, d, v + 1, n - 1, f + 1, w, r);
        GrownFacts(vm2, r.vm, ext, d);
        GrownTrans(vm, vm2, r.vm, ext, d);
      }
    }
  }

  lemma NewDirInv(vm: Vm, ext: Holds, d: nat, vm1: Vm)
    requires VmInv(vm, ext) && vm.Wf() && Alloc(vm.km).Allocated? && d == Alloc(vm.km).frame
    requires vm1 == vm.(km := WritePage(Alloc(vm.km).km, d, ZeroPage()), dirs := vm.dirs[d := PageDir(map[], map[])])
    ensures d !in vm.dirs && VmInv(vm1, ext)
  {
    hide Acct;
    var h, km1 := AllHolds(vm, ext), Alloc(vm.km).km;
    AllocFresh(vm.km, h);
    assert d in vm.dirs ==> DirPage(d) in Refs(h, d);
    var t := DirPage(d);
    assert t !in h;
    AllocAcct(vm.km, h, t);
    WriteAcct(km1, h[t := d], d, ZeroPage());
    HoldsNewDir(vm.dirs, ext, d);
    UnsharedAfterKernelHold(vm, vm1, ext, t, d);
  }

  lemma NewDirKeeps(vm: Vm, ext: Holds, d: nat, vm1: Vm)
    requires VmInv(vm, ext) && vm.Wf() && Alloc(vm.km).Allocated? && d == Alloc(vm.km).frame && d !in vm.dirs
    requires vm1 == vm.(km := WritePage(Alloc(vm.km).km, d, ZeroPage()), dirs := vm.dirs[d := PageDir(map[], map[])])
    ensures Keeps(vm, vm1, {})
  {
    InvAcct(vm, ext);
    hide VmInv;
    hide Acct;
    AllocFresh(vm.km, AllHolds(vm, ext));
    UserFramesApart(vm, ext, d);
    ViewsKept(vm, vm1);
  }

  // The kernel ranges are nonempty, ascending, above the user pages, and the first one
  // shares its page table with the user pages.
  lemma KmapLayout(dataPage: nat, i: nat, k: Kmap)
    requires KmapsOk(dataPage) && i < 4 && k == KmapEntry(dataPage, i)
    ensures USERPAGES <= k.lo < k.hi <= ENTRIES * ENTRIES
    ensures i == 0 ==> k.lo / ENTRIES == 0
    ensures i > 0 ==> KmapEntry(dataPage, i - 1).hi <= k.lo
  {
  }

  // Only the first i kernel ranges are mapped.
  ghost predicate MappedBelow(vm: Vm, d: nat, i: nat)
    requires d in vm.dirs
  {
    forall x | x in vm.dirs[d].ptes :: i > 0 && x < KmapEntry(vm.dataPage, i - 1).hi
  }

  lemma {:induction false} SetupFromKeeps(vm: Vm, ext: Holds, d: nat, i: nat, r: DirOutcome)
    requires VmInv(vm, ext) && vm.Wf() && KmapsOk(vm.dataPage) && d in vm.dirs && i <= 4 && r == SetupFrom(vm, d, i)
    requires MappedBelow(vm, d, i) && (i > 0 ==> 0 in vm.dirs[d].tables)
    ensures !r.DirPanic? && Grown(vm, r.vm, ext, d)
    ensures r.NewDir? ==> 0 in r.vm.dirs[d].tables
    decreases 4 - i
  {
    hide VmInv;
    hide Grown;
    hide MapPages;
    hide KmapEntry;
    if i == 4 {
      GrownRefl(vm, ext, d);
    } else {
      var k := KmapEntry(vm.dataPage, i);
      KmapLayout(vm.dataPage, i, k);
      var mapped := MapPages(vm, d, k.lo, k.hi - k.lo, k.lo, k.w, false);
      MapKernel(vm, ext, d, k.lo, k.hi - k.lo, k.lo, k.w, mapped);
      GrownFacts(vm, mapped.vm, ext, d);
      if mapped.Ok? {
        SetupFromKeeps(mapped.vm, ext, d, i + 1, r);
        GrownFacts(mapped.vm, r.vm, ext, d);
        GrownTrans(vm, mapped.vm, r.vm, ext, d);
      }
    }
  }

  /** setupkvm: a new directory without user pages, whose first page table exists, so that
      mapping a user page below USERTOP can never need another table.  On failure the frames
      it took stay held by the unfinished directory. */
  lemma SetupKvmKeeps(vm: Vm, ext: Holds, r: DirOutcome)
    requires VmInv(vm, ext) && r == SetupKvm(vm)
    ensures !r.DirPanic? && VmInv(r.vm, ext) && Keeps(vm, r.vm, {})
    ensures r.NewDir? ==> r.dir !in vm.dirs && r.vm.dirs.Keys == vm.dirs.Keys + {r.dir}
    ensures r.NewDir? ==> 0 in r.vm.dirs[r.dir].tables && forall x | x < USERPAGES :: x !in r.vm.dirs[r.dir].ptes
  {
    hide VmInv;
    hide Grown;
    hide Keeps;
    InvAcct(vm, ext);
    if Alloc(vm.km).Allocated? {
      var d := Alloc(vm.km).frame;
      var vm1 := vm.(km := WritePage(Alloc(vm.km).km, d, ZeroPage()), dirs := vm.dirs[d := PageDir(map[], map[])]);
      NewDirInv(vm, ext, d, vm1);
      NewDirKeeps(vm, ext, d, vm1);
      SetupFromKeeps(vm1, ext, d, 0, r);
      KeepsFresh(vm, vm1, r.vm, ext, d);
    } else {
      KeepsNone(vm);
    }
  }

  lemma KeepsNone(vm: Vm)
    requires vm.Wf()
    ensures Keeps(vm, vm, {})
  {
  }

  lemma KeepsFresh(vm: Vm, vm1: Vm, vm2: Vm, ext: Holds, d: nat)
    requires Keeps(vm, vm1, {}) && Grown(vm1, vm2, ext, d) && d !in vm.dirs
    requires forall x | x < USERPAGES :: x !in vm1.dirs[d].ptes
    ensures Keeps(vm, vm2, {}) && VmInv(vm2, ext)
    ensures forall x | x < USERPAGES :: x !in vm2.dirs[d].ptes
  {
    hide VmInv;
    hide UserView;
  }

  // ---------------------------------------------------------------- one user page at a time

  /** Mapping a freshly allocated frame with contents p at an unmapped user page. */
  lemma NewUserPteInv(vm: Vm, ext: Holds, d: nat, v: nat, p: Page, w: bool, f: nat, vm1: Vm)
    requires VmInv(vm, ext) && vm.Wf() && Alloc(vm.km).Allocated? && f == Alloc(vm.km).frame
    requires d in vm.dirs && v < USERPAGES && v !in vm.dirs[d].ptes && 0 in vm.dirs[d].tables
    requires vm1 == SetPte(vm.(km := WritePage(Alloc(vm.km).km, f, p)), d, v, Pte(f, w, true))
    ensures VmInv(vm1, ext)
  {
    hide Acct;
    var h, km1 := AllHolds(vm, ext), Alloc(vm.km).km;
    var t := UserPage(d, v);
    assert t !in h;
    DirsOkFacts(vm.dirs, d);
    AllocFresh(vm.km, h);
    AllocAcct(vm.km, h, t);
    WriteAcct(km1, h[t := f], f, p);
    HoldsNewUserPte(vm.dirs, ext, d, v, Pte(f, w, true));
    DirOkNewPte(vm.dirs[d], v, Pte(f, w, true));
    UnsharedNewPte(vm, ext, d, v, f, w, vm1);
  }

  lemma DirsOkFacts(dirs: map<nat, PageDir>, d: nat)
    requires DirsOk(dirs) && d in dirs
    ensures d < NFRAMES && DirOk(dirs[d])
  {
  }

  lemma DirOkNewPte(p: PageDir, v: nat, e: Pte)
    requires DirOk(p) && v < USERPAGES && 0 in p.tables && e.u
    ensures DirOk(p.(ptes := p.ptes[v := e]))
  {
  }

  lemma UnsharedNewPte(vm: Vm, ext: Holds, d: nat, v: nat, f: nat, w: bool, vm1: Vm)
    requires VmInv(vm, ext) && Refs(AllHolds(vm, ext), f) == {}
    requires d in vm.dirs && v < USERPAGES && v !in vm.dirs[d].ptes
    requires vm1.dirs == vm.dirs[d := vm.dirs[d].(ptes := vm.dirs[d].ptes[v := Pte(f, w, true)])]
    requires AllHolds(vm1, ext) == AllHolds(vm, ext)[UserPage(d, v) := f]
    ensures WritableUnshared(vm1, AllHolds(vm1, ext))
  {
    var h, h1 := AllHolds(vm, ext), AllHolds(vm1, ext);
    assert UserPage(d, v) !in h;
    RefsAdd(h, UserPage(d, v), f, f);
    forall d1, v1 | d1 in vm1.dirs && v1 in vm1.dirs[d1].ptes && v1 < USERPAGES && vm1.dirs[d1].ptes[v1].w
      ensures Refs(h1, vm1.dirs[d1].ptes[v1].frame) == {UserPage(d1, v1)}
    {
      if d1 != d || v1 != v {
        UserFramesManaged(vm, ext, d1, v1);
        RefsAdd(h, UserPage(d, v), f, vm.dirs[d1].ptes[v1].frame);
      }
    }
  }

  lemma NewUserPteView(vm: Vm, ext: Holds, d: nat, v: nat, p: Page, w: bool, f: nat, vm1: Vm)
    requires VmInv(vm, ext) && vm.Wf() && Alloc(vm.km).Allocated? && f == Alloc(vm.km).frame
    requires d in vm.dirs && v < USERPAGES && v !in vm.dirs[d].ptes
    requires vm1 == SetPte(vm.(km := WritePage(Alloc(vm.km).km, f, p)), d, v, Pte(f, w, true))
    ensures Keeps(vm, vm1, {d}) && UserView(vm1, d) == UserView(vm, d)[v := p]
  {
    hide VmInv;
    hide Acct;
    InvAcct(vm, ext);
    AllocFresh(vm.km, AllHolds(vm, ext));
    UserFramesApart(vm, ext, f);
  }

  /** Dropping one user page. */
  lemma ClearPteInv(vm: Vm, ext: Holds, d: nat, v: nat, km1: Kmem, vm1: Vm)
    requires VmInv(vm, ext) && vm.Wf() && d in vm.dirs && v in vm.dirs[d].ptes && v < USERPAGES
    requires Free(vm.km, vm.dirs[d].ptes[v].frame) == Freed(km1) && vm1 == ClearPte(vm.(km := km1), d, v)
    ensures VmInv(vm1, ext)
  {
    hide Acct;
    hide Free;
    var h, t := AllHolds(vm, ext), UserPage(d, v);
    assert t in h && h[t] == vm.dirs[d].ptes[v].frame;
    FreeAcct(vm.km, h, t);
    HoldsClear(vm.dirs, ext, d, v);
    UnsharedClear(vm, ext, d, v, vm1);
    DirsOkFacts(vm.dirs, d);
    assert DirOk(vm1.dirs[d]);
  }

  lemma UnsharedClear(vm: Vm, ext: Holds, d: nat, v: nat, vm1: Vm)
    requires VmInv(vm, ext) && d in vm.dirs && v < USERPAGES
    requires vm1.dirs == vm.dirs[d := vm.dirs[d].(ptes := vm.dirs[d].ptes - {v})]
    requires AllHolds(vm1, ext) == AllHolds(vm, ext) - {UserPage(d, v)}
    ensures WritableUnshared(vm1, AllHolds(vm1, ext))
  {
    hide Acct;
    var h, h1 := AllHolds(vm, ext), AllHolds(vm1, ext);
    forall d1, v1 | d1 in vm1.dirs && v1 in vm1.dirs[d1].ptes && v1 < USERPAGES && vm1.dirs[d1].ptes[v1].w
      ensures Refs(h1, vm1.dirs[d1].ptes[v1].frame) == {UserPage(d1, v1)}
    {
      assert Refs(h, vm1.dirs[d1].ptes[v1].frame) == {UserPage(d1, v1)};
      assert Refs(h1, vm1.dirs[d1].ptes[v1].frame) == Refs(h, vm1.dirs[d1].ptes[v1].frame) - {UserPage(d, v)};
    }
  }

  // Dropping page v of directory d leaves the contents behind every other user page alone.
  lemma OtherPagesKept(vm: Vm, ext: Holds, d: nat, v: nat, km1: Kmem)
    requires VmInv(vm, ext) && vm.Wf() && d in vm.dirs && v in vm.dirs[d].ptes && v < USERPAGES
    requires Free(vm.km, vm.dirs[d].ptes[v].frame) == Freed(km1)
    ensures PagesKept(vm, km1, d, v)
  {
    hide Acct;
    hide Free;
    var h, t := AllHolds(vm, ext), UserPage(d, v);
    assert t in h && h[t] == vm.dirs[d].ptes[v].frame;
    FreeAcct(vm.km, h, t);
    forall d1, v1 | d1 in vm.dirs && v1 in vm.dirs[d1].ptes && v1 < USERPAGES && (d1 != d || v1 != v)
      ensures var g := vm.dirs[d1].ptes[v1].frame; g < NFRAMES && km1.mem[g] == vm.km.mem[g]
    {
      UserFramesManaged(vm, ext, d1, v1);
      RefsRemove(h, t, vm.dirs[d1].ptes[v1].frame);
      assert UserPage(d1, v1) in Refs(h - {t}, vm.dirs[d1].ptes[v1].frame);
    }
  }

  ghost predicate PagesKept(vm: Vm, km1: Kmem, d: nat, v: nat)
    requires vm.Wf() && km1.Wf()
  {
    km1.lo == vm.km.lo &&
    forall d1, v1 | d1 in vm.dirs && v1 in vm.dirs[d1].ptes && v1 < USERPAGES && (d1 != d || v1 != v) ::
      var g := vm.dirs[d1].ptes[v1].frame; g < NFRAMES && km1.mem[g] == vm.km.mem[g]
  }

  lemma ClearPteView(vm: Vm, d: nat, v: nat, km1: Kmem, vm1: Vm)
    requires vm.Wf() && km1.Wf() && d in vm.dirs && vm1 == ClearPte(vm.(km := km1), d, v)
    requires PagesKept(vm, km1, d, v)
    ensures Keeps(vm, vm1, {d}) && UserView(vm1, d) == UserView(vm, d) - {v}
  {
  }

  // ---------------------------------------------------------------- deallocuvm

  // Pages [v, hi) are gone; everything else in the directory is as before.
  ghost predicate Dropped(p: PageDir, q: PageDir, v: nat, hi: nat) {
    q.tables == p.tables && q.ptes == map x | x in p.ptes && !(v <= x < hi) :: p.ptes[x]
  }

  ghost function DropView(m: map<nat, Page>, v: nat, hi: nat): map<nat, Page> {
    map x | x in m && !(v <= x < hi) :: m[x]
  }

  ghost predicate DeallocOk(vm: Vm, vm1: Vm, ext: Holds, d: nat, v: nat, hi: nat) {
    && vm.Wf() && vm1.Wf() && d in vm.dirs && d in vm1.dirs
    && VmInv(vm1, ext) && Keeps(vm, vm1, {d})
    && vm1.dirs == vm.dirs[d := vm1.dirs[d]]
    && Dropped(vm.dirs[d], vm1.dirs[d], v, hi)
    && UserView(vm1, d) == DropView(UserView(vm, d), v, hi)
  }

  lemma DeallocNone(vm: Vm, ext: Holds, d: nat, v: nat, hi: nat)
    requires VmInv(vm, ext) && d in vm.dirs && forall x | v <= x < hi :: x !in vm.dirs[d].ptes
    ensures DeallocOk(vm, vm, ext, d, v, hi)
  {
    assert vm.dirs[d].ptes == map x | x in vm.dirs[d].ptes && !(v <= x < hi) :: vm.dirs[d].ptes[x];
    assert UserView(vm, d) == DropView(UserView(vm, d), v, hi);
  }

  lemma DeallocSkip(vm: Vm, vm1: Vm, ext: Holds, d: nat, v: nat, hi: nat)
    requires d in vm.dirs && v !in vm.dirs[d].ptes && v < hi && DeallocOk(vm, vm1, ext, d, v + 1, hi)
    ensures DeallocOk(vm, vm1, ext, d, v, hi)
  {
    hide VmInv;
    hide Keeps;
    var p := vm.dirs[d].ptes;
    assert (map x | x in p && !(v <= x < hi) :: p[x]) == (map x | x in p && !(v + 1 <= x < hi) :: p[x]);
    var m := UserView(vm, d);
    assert DropView(m, v, hi) == DropView(m, v + 1, hi);
  }

  lemma DeallocOne(vm: Vm, vm1: Vm, vm2: Vm, ext: Holds, d: nat, v: nat, hi: nat)
    requires vm.Wf() && vm1.Wf() && d in vm.dirs && v < hi
    requires vm1.dirs == vm.dirs[d := vm.dirs[d].(ptes := vm.dirs[d].ptes - {v})]
    requires Keeps(vm, vm1, {d}) && UserView(vm1, d) == UserView(vm, d) - {v}
    requires DeallocOk(vm1, vm2, ext, d, v + 1, hi)
    ensures DeallocOk(vm, vm2, ext, d, v, hi)
  {
    hide VmInv;
    hide UserView;
    KeepsTrans(vm, vm1, vm2, {d});
    var p, q := vm.dirs[d].ptes, vm1.dirs[d].ptes;
    assert (map x | x in p && !(v <= x < hi) :: p[x]) == (map x | x in q && !(v + 1 <= x < hi) :: q[x]);
    assert DropView(UserView(vm, d), v, hi) == DropView(UserView(vm1, d), v + 1, hi);
  }

  lemma FreeOfPage(vm: Vm, ext: Holds, d: nat, v: nat)
    requires VmInv(vm, ext) && vm.Wf() && d in vm.dirs && v in vm.dirs[d].ptes && v < USERPAGES
    ensures vm.dirs[d].ptes[v].frame > 0 && Free(vm.km, vm.dirs[d].ptes[v].frame).Freed?
  {
    hide Acct;
    hide Free;
    var h, t := AllHolds(vm, ext), UserPage(d, v);
    assert t in h && h[t] == vm.dirs[d].ptes[v].frame;
    UserFramesManaged(vm, ext, d, v);
    FreeAcct(vm.km, h, t);
  }

  /** deallocuvm on user pages never panics, drops exactly the pages asked for, and changes
      nothing any other address space sees. */
  lemma {:induction false} DeallocKeeps(vm: Vm, ext: Holds, d: nat, v: nat, oldsz: nat, r: Outcome)
    requires VmInv(vm, ext) && vm.Wf() && d in vm.dirs && oldsz <= USERTOP
    requires r == DeallocFrom(vm, d, v, oldsz)
    ensures r.Ok? && DeallocOk(vm, r.vm, ext, d, v, PageRoundUp(oldsz))
    decreases oldsz - v * PGSIZE
  {
    hide VmInv;
    hide DeallocOk;
    hide Free;
    var hi := PageRoundUp(oldsz);
    if v * PGSIZE >= oldsz {
      DeallocNone(vm, ext, d, v, hi);
    } else if v !in vm.dirs[d].ptes {
      DeallocKeeps(vm, ext, d, v + 1, oldsz, r);
      DeallocSkip(vm, r.vm, ext, d, v, hi);
    } else {
      FreeOfPage(vm, ext, d, v);
      var km1 := Free(vm.km, vm.dirs[d].ptes[v].frame).km;
      var vm1 := ClearPte(vm.(km := km1), d, v);
      ClearPteInv(vm, ext, d, v, km1, vm1);
      OtherPagesKept(vm, ext, d, v, km1);
      ClearPteView(vm, d, v, km1, vm1);
      DeallocKeeps(vm1, ext, d, v + 1, oldsz, r);
      DeallocOne(vm, vm1, r.vm, ext, d, v, hi);
    }
  }

  // ---------------------------------------------------------------- allocuvm

  /** m with zero pages at v .. hi-1. */
  ghost function GrowView(m: map<nat, Page>, v: nat, hi: nat): (r: map<nat, Page>)
    ensures forall x: nat :: x in r <==> x in m || v <= x < hi
    ensures forall x | x in r :: r[x] == if v <= x < hi then ZeroPage() else m[x]
    decreases hi - v
  {
    if v >= hi then m else GrowView(m[v := ZeroPage()], v + 1, hi)
  }

  // Mapping one user page can neither fail nor panic: its page table always exists.
  lemma MapOneUser(vm: Vm, d: nat, v: nat, f: nat, w: bool, u: bool)
    requires vm.Wf() && d in vm.dirs && v < USERPAGES && 0 in vm.dirs[d].tables && v !in vm.dirs[d].ptes
    ensures MapPages(vm, d, v, 1, f, w, u) == Ok(SetPte(vm, d, v, Pte(f, w, u)))
  {
    var vm1 := SetPte(vm, d, v, Pte(f, w, u));
    assert MapPages(vm1, d, v + 1, 0, f + 1, w, u) == Ok(vm1);
  }

  ghost predicate AllocOk(vm: Vm, r: SizeOutcome, ext: Holds, d: nat, v: nat, oldsz: nat, newsz: nat) {
    && r.Size? && vm.Wf() && r.vm.Wf() && d in vm.dirs && d in r.vm.dirs
    && VmInv(r.vm, ext) && Keeps(vm, r.vm, {d})
    && r.vm.dirs == vm.dirs[d := r.vm.dirs[d]]
    && r.vm.dirs[d].tables == vm.dirs[d].tables
    && (if r.sz == 0
        then Dropped(vm.dirs[d], r.vm.dirs[d], PageRoundUp(oldsz), PageRoundUp(newsz))
             && UserView(r.vm, d) == DropView(UserView(vm, d), PageRoundUp(oldsz), PageRoundUp(newsz))
        else r.sz == newsz && UserView(r.vm, d) == GrowView(UserView(vm, d), v, PageRoundUp(newsz)))
  }

  lemma AllocDone(vm: Vm, ext: Holds, d: nat, v: nat, oldsz: nat, newsz: nat)
    requires VmInv(vm, ext) && vm.Wf() && d in vm.dirs && v * PGSIZE >= newsz > 0
    ensures AllocOk(vm, Size(vm, newsz), ext, d, v, oldsz, newsz)
  {
    hide Acct;
  }

  lemma AllocUndone(vm: Vm, vm1: Vm, ext: Holds, d: nat, v: nat, oldsz: nat, newsz: nat)
    requires DeallocOk(vm, vm1, ext, d, PageRoundUp(oldsz), PageRoundUp(newsz))
    ensures AllocOk(vm, Size(vm1, 0), ext, d, v, oldsz, newsz)
  {
    hide VmInv;
    hide UserView;
    hide Keeps;
  }

  lemma AllocOne(vm: Vm, vm1: Vm, r: SizeOutcome, ext: Holds, d: nat, v: nat, oldsz: nat, newsz: nat, e: Pte)
    requires vm.Wf() && vm1.Wf() && d in vm.dirs && v * PGSIZE < newsz && PageRoundUp(oldsz) <= v
    requires v !in vm.dirs[d].ptes
    requires vm1.dirs == vm.dirs[d := vm.dirs[d].(ptes := vm.dirs[d].ptes[v := e])]
    requires Keeps(vm, vm1, {d}) && UserView(vm1, d) == UserView(vm, d)[v := ZeroPage()]
    requires AllocOk(vm1, r, ext, d, v + 1, oldsz, newsz)
    ensures AllocOk(vm, r, ext, d, v, oldsz, newsz)
  {
    hide VmInv;
    hide UserView;
    hide Keeps;
    KeepsTrans(vm, vm1, r.vm, {d});
    var lo, hi := PageRoundUp(oldsz), PageRoundUp(newsz);
    assert lo <= v < hi;
    DropSame(vm.dirs[d].ptes, v, e, lo, hi);
    assert v !in UserView(vm, d) by { ViewDomain(vm, d, v); }
    DropSame(UserView(vm, d), v, ZeroPage(), lo, hi);
  }

  lemma ViewDomain(vm: Vm, d: nat, v: nat)
    requires vm.Wf() && d in vm.dirs && v !in vm.dirs[d].ptes
    ensures v !in UserView(vm, d)
  {
  }

  lemma DropSame<T>(m: map<nat, T>, v: nat, t: T, lo: nat, hi: nat)
    requires lo <= v < hi && v !in m
    ensures (map x | x in m && !(lo <= x < hi) :: m[x])
         == var m1 := m[v := t]; map x | x in m1 && !(lo <= x < hi) :: m1[x]
  {
  }

  lemma AllocStep(vm: Vm, ext: Holds, d: nat, v: nat, f: nat, vm1: Vm)
    requires VmInv(vm, ext) && vm.Wf() && d in vm.dirs && 0 in vm.dirs[d].tables
    requires v < USERPAGES && v !in vm.dirs[d].ptes && Alloc(vm.km).Allocated? && f == Alloc(vm.km).frame
    requires vm1 == SetPte(vm.(km := WritePage(Alloc(vm.km).km, f, ZeroPage())), d, v, Pte(f, true, true))
    ensures MapPages(vm.(km := WritePage(Alloc(vm.km).km, f, ZeroPage())), d, v, 1, f, true, true) == Ok(vm1)
    ensures VmInv(vm1, ext) && Keeps(vm, vm1, {d}) && UserView(vm1, d) == UserView(vm, d)[v := ZeroPage()]
  {
    hide VmInv;
    hide UserView;
    hide Keeps;
    MapOneUser(vm.(km := WritePage(Alloc(vm.km).km, f, ZeroPage())), d, v, f, true, true);
    NewUserPteInv(vm, ext, d, v, ZeroPage(), true, f, vm1);
    NewUserPteView(vm, ext, d, v, ZeroPage(), true, f, vm1);
  }

  /** allocuvm below USERTOP never panics.  It succeeds, mapping exactly the missing pages,
      all zero, if and only if there are that many free frames; otherwise it takes back every
      page it mapped. */
  lemma {:induction false} AllocKeeps(vm: Vm, ext: Holds, d: nat, v: nat, oldsz: nat, newsz: nat, r: SizeOutcome)
    requires VmInv(vm, ext) && vm.Wf() && d in vm.dirs && 0 in vm.dirs[d].tables
    requires oldsz < newsz <= USERTOP && PageRoundUp(oldsz) <= v
    requires forall x | v <= x < USERPAGES :: x !in vm.dirs[d].ptes
    requires r == AllocFrom(vm, d, v, oldsz, newsz)
    ensures AllocOk(vm, r, ext, d, v, oldsz, newsz)
    ensures r.sz == 0 <==> |vm.km.freelist| < PageRoundUp(newsz) - v
    decreases newsz - v * PGSIZE
  {
    hide VmInv;
    hide AllocOk;
    hide DeallocOk;
    hide UserView;
    hide Keeps;
    hide MapPages;
    if v * PGSIZE >= newsz {
      AllocDone(vm, ext, d, v, oldsz, newsz);
    } else if Alloc(vm.km).OutOfMemory? {
      var freed := DeallocFrom(vm, d, PageRoundUp(oldsz), newsz);
      DeallocKeeps(vm, ext, d, PageRoundUp(oldsz), newsz, freed);
      AllocUndone(vm, freed.vm, ext, d, v, oldsz, newsz);
    } else {
      var km1, f := Alloc(vm.km).km, Alloc(vm.km).frame;
      var vm0 := vm.(km := WritePage(km1, f, ZeroPage()));
      var e := Pte(f, true, true);
      var vm1 := SetPte(vm0, d, v, e);
      AllocStep(vm, ext, d, v, f, vm1);
      AllocKeeps(vm1, ext, d, v + 1, oldsz, newsz, r);
      AllocOne(vm, vm1, r, ext, d, v, oldsz, newsz, e);
    }
  }

  // ---------------------------------------------------------------- freevm

  ghost function TableTokens(d: nat, tables: map<nat, nat>, i: nat): set<Holder> {
    set x | x in tables && x >= i :: TablePage(d, x)
  }

  // Frames that still have a holder in h keep their contents.
  ghost predicate HeldKept(km: Kmem, km1: Kmem, h: Holds)
    requires km.Wf() && km1.Wf()
  {
    km1.lo == km.lo && forall g | 0 <= g < NFRAMES && Refs(h, g) != {} :: km1.mem[g] == km.mem[g]
  }

  lemma HeldKeptTrans(a: Kmem, b: Kmem, c: Kmem, h: Holds, h1: Holds)
    requires a.Wf() && b.Wf() && c.Wf() && HeldKept(a, b, h) && HeldKept(b, c, h1)
    requires forall r | r in h1 :: r in h && h1[r] == h[r]
    ensures HeldKept(a, c, h1)
  {
    forall g | 0 <= g < NFRAMES && Refs(h1, g) != {} ensures c.mem[g] == a.mem[g] {
      var r :| r in Refs(h1, g);
      assert r in Refs(h, g);
    }
  }

  /** Freeing the page tables of a directory: each is held once, so each becomes free. */
  lemma {:induction false} FreeTablesAcct(km: Kmem, h: Holds, d: nat, tables: map<nat, nat>, i: nat, r: FreeResult)
    requires km.Wf() && Acct(km, h) && r == FreeTables(km, tables, i)
    requires forall x | x in tables :: x < ENTRIES
    requires forall x | x in tables && x >= i :: TablePage(d, x) in h && h[TablePage(d, x)] == tables[x]
    ensures r.Freed? && Acct(r.km, h - TableTokens(d, tables, i))
    ensures HeldKept(km, r.km, h - TableTokens(d, tables, i))
    decreases ENTRIES - i
  {
    hide Acct;
    hide Free;
    if i >= ENTRIES {
      assert TableTokens(d, tables, i) == {};
      assert h - {} == h;
    } else if i !in tables {
      FreeTablesAcct(km, h, d, tables, i + 1, r);
      assert TableTokens(d, tables, i) == TableTokens(d, tables, i + 1);
    } else {
      var t := TablePage(d, i);
      FreeAcct(km, h, t);
      var km1 := Free(km, tables[i]).km;
      var h1 := h - {t};
      FreeTablesAcct(km1, h1, d, tables, i + 1, r);
      assert TableTokens(d, tables, i) == TableTokens(d, tables, i + 1) + {t};
      assert h - TableTokens(d, tables, i) == h1 - TableTokens(d, tables, i + 1);
      assert HeldKept(km, km1, h1);
      HeldKeptTrans(km, km1, r.km, h1, h1 - TableTokens(d, tables, i + 1));
    }
  }

  lemma HoldsRemoveSet(dirs: map<nat, PageDir>, dirs1: map<nat, PageDir>, ext: Holds, ts: set<Holder>)
    requires forall t | t in ts :: t !in ext
    requires forall r :: HeldBy(dirs1, r) <==> HeldBy(dirs, r) && r !in ts
    requires forall r | HeldBy(dirs1, r) :: FrameOf(dirs1, r) == FrameOf(dirs, r)
    ensures DirHolds(dirs1) + ext == (DirHolds(dirs) + ext) - ts
  {
    hide HeldBy;
    hide FrameOf;
    assert DirHolds(dirs1) == DirHolds(dirs) - ts;
  }

  /** A directory without user pages accounts for its tables and itself, nothing more. */
  lemma HoldsDropDir(dirs: map<nat, PageDir>, ext: Holds, d: nat)
    requires Stacks(ext) && d in dirs && forall v | v < USERPAGES :: v !in dirs[d].ptes
    ensures DirHolds(dirs - {d}) + ext
         == (DirHolds(dirs) + ext) - (TableTokens(d, dirs[d].tables, 0) + {DirPage(d)})
  {
    hide DirHolds;
    HoldsRemoveSet(dirs, dirs - {d}, ext, TableTokens(d, dirs[d].tables, 0) + {DirPage(d)});
  }

  ghost predicate NoUser(vm: Vm, d: nat)
    requires d in vm.dirs
  {
    forall v | v < USERPAGES :: v !in vm.dirs[d].ptes
  }

  // Every table of directory d, and d itself, is accounted for in h.
  ghost predicate DirHeld(h: Holds, d: nat, tables: map<nat, nat>) {
    && (forall x | x in tables :: x < ENTRIES && TablePage(d, x) in h && h[TablePage(d, x)] == tables[x])
    && DirPage(d) in h && h[DirPage(d)] == d
  }

  lemma FreeDirFrames(km: Kmem, h: Holds, d: nat, tables: map<nat, nat>)
    requires km.Wf() && Acct(km, h) && DirHeld(h, d, tables)
    ensures var tabs := FreeTables(km, tables, 0);
      tabs.Freed? && var last := Free(tabs.km, d);
      var h1 := h - (TableTokens(d, tables, 0) + {DirPage(d)});
      last.Freed? && Acct(last.km, h1) && HeldKept(km, last.km, h1)
  {
    hide Acct;
    hide Free;
    var ts, t := TableTokens(d, tables, 0), DirPage(d);
    var tabs := FreeTables(km, tables, 0);
    FreeTablesAcct(km, h, d, tables, 0, tabs);
    var h2 := h - ts;
    FreeAcct(tabs.km, h2, t);
    assert h - (ts + {t}) == h2 - {t};
    HeldKeptTrans(km, tabs.km, Free(tabs.km, d).km, h2, h2 - {t});
  }

  lemma DirIsHeld(vm: Vm, ext: Holds, d: nat)
    requires VmInv(vm, ext) && d in vm.dirs
    ensures DirHeld(AllHolds(vm, ext), d, vm.dirs[d].tables)
  {
    hide Acct;
    DirsOkFacts(vm.dirs, d);
  }

  // The last part of freevm, on a directory without user pages.
  lemma FreeDirAcct(vm: Vm, ext: Holds, d: nat, vm1: Vm)
    requires VmInv(vm, ext) && vm.Wf() && d in vm.dirs && NoUser(vm, d) && vm1.dirs == vm.dirs - {d}
    ensures var tabs := FreeTables(vm.km, vm.dirs[d].tables, 0);
      tabs.Freed? && var last := Free(tabs.km, d);
      last.Freed? && Acct(last.km, AllHolds(vm1, ext)) && HeldKept(vm.km, last.km, AllHolds(vm1, ext))
  {
    hide VmInv;
    hide Acct;
    hide Free;
    hide FreeTables;
    hide HeldKept;
    InvAcct(vm, ext);
    DirIsHeld(vm, ext, d);
    FreeDirFrames(vm.km, AllHolds(vm, ext), d, vm.dirs[d].tables);
    HoldsDropDir(vm.dirs, ext, d);
  }

  lemma UnsharedFewer(vm: Vm, vm1: Vm, h: Holds, h1: Holds)
    requires WritableUnshared(vm, h) && vm1.dirs.Keys <= vm.dirs.Keys
    requires forall e | e in vm1.dirs :: vm1.dirs[e] == vm.dirs[e]
    requires forall r | r in h1 :: r in h && h1[r] == h[r]
    requires forall e, v | e in vm1.dirs && v in vm1.dirs[e].ptes && v < USERPAGES ::
               UserPage(e, v) in h1 && h1[UserPage(e, v)] == vm1.dirs[e].ptes[v].frame
    ensures WritableUnshared(vm1, h1)
  {
    forall e, v | e in vm1.dirs && v in vm1.dirs[e].ptes && v < USERPAGES && vm1.dirs[e].ptes[v].w
      ensures Refs(h1, vm1.dirs[e].ptes[v].frame) == {UserPage(e, v)}
    {
      var g := vm1.dirs[e].ptes[v].frame;
      assert Refs(h, g) == {UserPage(e, v)};
      assert forall r | r in Refs(h1, g) :: r in Refs(h, g);
      assert UserPage(e, v) in Refs(h1, g);
    }
  }

  lemma FreeDirInv(vm: Vm, ext: Holds, d: nat, vm1: Vm)
    requires VmInv(vm, ext) && vm.Wf() && vm1.Wf() && d in vm.dirs && NoUser(vm, d)
    requires vm1.dirs == vm.dirs - {d} && vm1.dataPage == vm.dataPage && Acct(vm1.km, AllHolds(vm1, ext))
    ensures VmInv(vm1, ext)
  {
    hide Acct;
    hide WritableUnshared;
    HoldsDropDir(vm.dirs, ext, d);
    UnsharedFewer(vm, vm1, AllHolds(vm, ext), AllHolds(vm1, ext));
  }

  lemma FreeDirView(vm: Vm, ext: Holds, d: nat, vm1: Vm)
    requires vm.Wf() && d in vm.dirs && vm1.dirs == vm.dirs - {d} && VmInv(vm1, ext) && vm1.Wf()
    requires HeldKept(vm.km, vm1.km, AllHolds(vm1, ext))
    ensures Keeps(vm, vm1, {d})
  {
    hide Acct;
    forall e, v | e in vm1.dirs && v in vm1.dirs[e].ptes && v < USERPAGES
      ensures var g := vm1.dirs[e].ptes[v].frame; g < NFRAMES && vm1.km.mem[g] == vm.km.mem[g]
    {
      UserFramesManaged(vm1, ext, e, v);
    }
  }

  /** freevm never panics; it releases exactly what the directory held and changes nothing
      any other address space sees. */
  lemma FreeVmKeeps(vm: Vm, ext: Holds, d: nat, r: Outcome)
    requires VmInv(vm, ext) && vm.Wf() && d in vm.dirs && r == FreeVm(vm, d)
    ensures r.Ok? && r.vm.Wf() && VmInv(r.vm, ext) && Keeps(vm, r.vm, {d})
    ensures r.vm.dirs == vm.dirs - {d} && r.vm.dataPage == vm.dataPage
  {
    hide VmInv;
    hide Keeps;
    hide Free;
    hide FreeTables;
    hide HeldKept;
    var dropped := DeallocFrom(vm, d, 0, USERTOP);
    DeallocKeeps(vm, ext, d, 0, USERTOP, dropped);
    var vm1 := dropped.vm;
    assert NoUser(vm1, d);
    FreeDirAcct(vm1, ext, d, vm1.(dirs := vm1.dirs - {d}));
    FreeDirInv(vm1, ext, d, r.vm);
    FreeDirView(vm1, ext, d, r.vm);
    KeepsTrans(vm, vm1, r.vm, {d});
    assert vm1.dirs - {d} == vm.dirs - {d};
  }

  // ---------------------------------------------------------------- copyuvm and cowuvm

  /** m with the pages v .. hi-1 of s. */
  ghost function CopyView(m: map<nat, Page>, s: map<nat, Page>, v: nat, hi: nat): (r: map<nat, Page>)
    ensures forall x: nat :: x in r <==> x in m || (v <= x < hi && x in s)
    ensures forall x | x in r :: r[x] == if v <= x < hi && x in s then s[x] else m[x]
    decreases hi - v
  {
    if v >= hi then m else CopyView(if v in s then m[v := s[v]] else m, s, v + 1, hi)
  }

  /** Both copies have the same visible effect: the new directory reads exactly what the
      source reads below sz, and nobody else sees a change; on failure the new directory is
      gone again. */
  ghost predicate DupOk(vm: Vm, r: DirOutcome, ext: Holds, src: nat, d: nat, v: nat, hi: nat) {
    && !r.DirPanic? && vm.Wf() && r.vm.Wf() && src in vm.dirs && d in vm.dirs
    && VmInv(r.vm, ext) && Keeps(vm, r.vm, {d}) && r.vm.dataPage == vm.dataPage
    && (if r.NoDir? then r.vm.dirs.Keys == vm.dirs.Keys - {d}
        else && r.dir == d && r.vm.dirs.Keys == vm.dirs.Keys
             && r.vm.dirs[d].tables == vm.dirs[d].tables
             && UserView(r.vm, d) == CopyView(UserView(vm, d), UserView(vm, src), v, hi))
  }

  lemma DupNone(vm: Vm, ext: Holds, src: nat, d: nat, v: nat, hi: nat)
    requires VmInv(vm, ext) && vm.Wf() && src in vm.dirs && d in vm.dirs && v >= hi
    ensures DupOk(vm, NewDir(vm, d), ext, src, d, v, hi)
  {
  }

  lemma DupUndone(vm: Vm, ext: Holds, src: nat, d: nat, v: nat, hi: nat, r: DirOutcome)
    requires VmInv(vm, ext) && vm.Wf() && src in vm.dirs && d in vm.dirs && src != d
    requires r == FreeVmFail(vm, d)
    ensures DupOk(vm, r, ext, src, d, v, hi) && r.NoDir?
  {
    hide VmInv;
    hide Keeps;
    FreeVmKeeps(vm, ext, d, FreeVm(vm, d));
  }

  lemma DupOne(vm: Vm, vm1: Vm, r: DirOutcome, ext: Holds, src: nat, d: nat, v: nat, hi: nat)
    requires vm.Wf() && vm1.Wf() && src in vm.dirs && d in vm.dirs && src != d && v < hi
    requires vm1.dirs.Keys == vm.dirs.Keys && vm1.dataPage == vm.dataPage && vm1.dirs[d].tables == vm.dirs[d].tables
    requires Keeps(vm, vm1, {d}) && v in UserView(vm, src)
    requires UserView(vm1, d) == UserView(vm, d)[v := UserView(vm, src)[v]]
    requires DupOk(vm1, r, ext, src, d, v + 1, hi)
    ensures DupOk(vm, r, ext, src, d, v, hi)
  {
    hide VmInv;
    hide UserView;
    KeepsTrans(vm, vm1, r.vm, {d});
    assert UserView(vm1, src) == UserView(vm, src);
  }

  // What one iteration of either copy loop establishes.
  ghost predicate PageCopied(vm: Vm, vm1: Vm, ext: Holds, src: nat, d: nat, v: nat) {
    && vm.Wf() && vm1.Wf() && src in vm.dirs && d in vm.dirs
    && VmInv(vm1, ext) && Keeps(vm, vm1, {d})
    && vm1.dirs.Keys == vm.dirs.Keys && vm1.dataPage == vm.dataPage && vm1.dirs[d].tables == vm.dirs[d].tables
    && (forall x :: x in vm1.dirs[d].ptes <==> x in vm.dirs[d].ptes || x == v)
    && vm1.dirs[src].ptes.Keys == vm.dirs[src].ptes.Keys
    && v in UserView(vm, src) && UserView(vm1, d) == UserView(vm, d)[v := UserView(vm, src)[v]]
  }

  lemma EagerStep(vm: Vm, ext: Holds, src: nat, d: nat, v: nat, f: nat, e: Pte, vm1: Vm)
    requires VmInv(vm, ext) && vm.Wf() && src in vm.dirs && d in vm.dirs && src != d && v < USERPAGES
    requires v in vm.dirs[src].ptes && e == vm.dirs[src].ptes[v] && v !in vm.dirs[d].ptes && 0 in vm.dirs[d].tables
    requires Alloc(vm.km).Allocated? && f == Alloc(vm.km).frame && e.frame < NFRAMES
    requires vm1 == SetPte(vm.(km := WritePage(Alloc(vm.km).km, f, Alloc(vm.km).km.mem[e.frame])), d, v, Pte(f, e.w, true))
    ensures PageCopied(vm, vm1, ext, src, d, v)
  {
    hide VmInv;
    hide Keeps;
    InvAcct(vm, ext);
    var p := vm.km.mem[e.frame];
    hide Acct;
    AllocFresh(vm.km, AllHolds(vm, ext));
    NewUserPteInv(vm, ext, d, v, p, e.w, f, vm1);
    NewUserPteView(vm, ext, d, v, p, e.w, f, vm1);
  }

  lemma CowStep(vm: Vm, ext: Holds, src: nat, d: nat, v: nat, e: Pte, vm1: Vm)
    requires VmInv(vm, ext) && vm.Wf() && src in vm.dirs && d in vm.dirs && src != d && v < USERPAGES
    requires v in vm.dirs[src].ptes && e == vm.dirs[src].ptes[v].(w := false) && e.frame < NFRAMES
    requires v !in vm.dirs[d].ptes && 0 in vm.dirs[d].tables
    requires vm1 == SetPte(SetPte(vm, src, v, e), d, v, e).(km := Inc(vm.km, e.frame))
    ensures PageCopied(vm, vm1, ext, src, d, v)
  {
    hide VmInv;
    hide Keeps;
    hide UserView;
    CowStepInv(vm, ext, src, d, v, e, vm1);
    CowStepView(vm, src, d, v, e, vm1);
  }

  lemma CowStepView(vm: Vm, src: nat, d: nat, v: nat, e: Pte, vm1: Vm)
    requires vm.Wf() && src in vm.dirs && d in vm.dirs && src != d && v < USERPAGES
    requires v in vm.dirs[src].ptes && e == vm.dirs[src].ptes[v].(w := false) && e.frame < NFRAMES
    requires v !in vm.dirs[d].ptes
    requires vm1 == SetPte(SetPte(vm, src, v, e), d, v, e).(km := Inc(vm.km, e.frame))
    ensures Keeps(vm, vm1, {d}) && v in UserView(vm, src)
    ensures UserView(vm1, d) == UserView(vm, d)[v := UserView(vm, src)[v]]
  {
    hide Inc;
    hide UserView;
    IncFacts(vm.km, e.frame);
    forall x | x in vm.dirs && x != d ensures SameFrames(vm.dirs[x], vm1.dirs[x]) && UserView(vm1, x) == UserView(vm, x) { ViewAlone(vm, vm1, x); }
    ViewAt(vm, src, v);
    ViewPlus(vm, vm1, d, v, e);
  }

  lemma ViewAt(vm: Vm, d: nat, v: nat)
    requires vm.Wf() && d in vm.dirs && v in vm.dirs[d].ptes && v < USERPAGES && vm.dirs[d].ptes[v].frame < NFRAMES
    ensures v in UserView(vm, d) && UserView(vm, d)[v] == vm.km.mem[vm.dirs[d].ptes[v].frame]
  {
  }

  // One page more.
  lemma ViewPlus(vm: Vm, vm1: Vm, d: nat, v: nat, e: Pte)
    requires vm.Wf() && vm1.Wf() && d in vm.dirs && d in vm1.dirs && vm1.km.mem == vm.km.mem && v < USERPAGES && e.frame < NFRAMES
    requires vm1.dirs[d].ptes == vm.dirs[d].ptes[v := e]
    ensures UserView(vm1, d) == UserView(vm, d)[v := vm.km.mem[e.frame]]
  {
  }

  // The same frames behind the same pages, and the same contents.
  lemma ViewAlone(vm: Vm, vm1: Vm, x: nat)
    requires vm.Wf() && vm1.Wf() && x in vm.dirs && x in vm1.dirs && vm1.km.mem == vm.km.mem && SameFrames(vm.dirs[x], vm1.dirs[x])
    ensures UserView(vm1, x) == UserView(vm, x)
  {
  }

  lemma IncFacts(km: Kmem, f: nat)
    requires km.Wf() && f < NFRAMES
    ensures Inc(km, f).Wf() && Inc(km, f).mem == km.mem && Inc(km, f).lo == km.lo
  {
  }

  lemma CowStepInv(vm: Vm, ext: Holds, src: nat, d: nat, v: nat, e: Pte, vm1: Vm)
    requires VmInv(vm, ext) && vm.Wf() && src in vm.dirs && d in vm.dirs && src != d && v < USERPAGES
    requires v in vm.dirs[src].ptes && e == vm.dirs[src].ptes[v].(w := false) && e.frame < NFRAMES
    requires v !in vm.dirs[d].ptes && 0 in vm.dirs[d].tables
    requires vm1 == SetPte(SetPte(vm, src, v, e), d, v, e).(km := Inc(vm.km, e.frame))
    ensures VmInv(vm1, ext)
  {
    hide Acct;
    hide WritableUnshared;
    hide DirsOk;
    hide AllHolds;
    hide Inc;
    var h, t, f := AllHolds(vm, ext), UserPage(d, v), e.frame;
    CowHolds(vm, ext, src, d, v, e, vm1);
    UserPteOk(vm, ext, src, v);
    UserFramesManaged(vm, ext, src, v);
    OnlyUsers(vm.km, h, UserPage(src, v));
    DirsOkFacts(vm.dirs, d);
    IncAcct(vm.km, h, t, f);
    UnsharedCow(vm, vm1, h, src, d, v, e);
    DirsOkCow(vm, vm1, src, d, v, e);
  }

  lemma DirsOkCow(vm: Vm, vm1: Vm, src: nat, d: nat, v: nat, e: Pte)
    requires DirsOk(vm.dirs) && src in vm.dirs && d in vm.dirs && src != d && v < USERPAGES && e.u
    requires 0 in vm.dirs[d].tables && 0 in vm.dirs[src].tables
    requires vm1.dirs == SetPte(SetPte(vm, src, v, e), d, v, e).dirs
    ensures DirsOk(vm1.dirs)
  {
    DirOkNewPte(vm.dirs[d], v, e);
    DirOkNewPte(vm.dirs[src], v, e);
  }

  lemma OnlyUsers(km: Kmem, h: Holds, t: Holder)
    requires Acct(km, h) && t in h && t.UserPage?
    ensures t in Refs(h, h[t]) && forall q | q in Refs(h, h[t]) :: q.UserPage?
  {
  }

  lemma PteIsHeld(dirs: map<nat, PageDir>, d: nat, v: nat)
    requires d in dirs && v < USERPAGES
    ensures UserPage(d, v) in DirHolds(dirs) <==> v in dirs[d].ptes
    ensures v in dirs[d].ptes ==> DirHolds(dirs)[UserPage(d, v)] == dirs[d].ptes[v].frame
  {
  }

  lemma CowHolds(vm: Vm, ext: Holds, src: nat, d: nat, v: nat, e: Pte, vm1: Vm)
    requires Stacks(ext) && src in vm.dirs && d in vm.dirs && src != d && v < USERPAGES
    requires v in vm.dirs[src].ptes && e == vm.dirs[src].ptes[v].(w := false)
    requires v !in vm.dirs[d].ptes
    requires vm1.dirs == SetPte(SetPte(vm, src, v, e), d, v, e).dirs
    ensures var h := AllHolds(vm, ext);
      UserPage(src, v) in h && h[UserPage(src, v)] == e.frame && UserPage(d, v) !in h
      && AllHolds(vm1, ext) == h[UserPage(d, v) := e.frame]
  {
    hide HeldBy;
    hide FrameOf;
    var h := AllHolds(vm, ext);
    PteIsHeld(vm.dirs, src, v);
    PteIsHeld(vm.dirs, d, v);
    HoldsNewUserPte(vm.dirs, ext, src, v, e);
    var dirs1 := SetPte(vm, src, v, e).dirs;
    assert h[UserPage(src, v) := e.frame] == h;
    HoldsNewUserPte(dirs1, ext, d, v, e);
  }

  lemma UnsharedCow(vm: Vm, vm1: Vm, h: Holds, src: nat, d: nat, v: nat, e: Pte)
    requires WritableUnshared(vm, h) && src in vm.dirs && d in vm.dirs && src != d && v < USERPAGES
    requires UserPage(src, v) in h && h[UserPage(src, v)] == e.frame && UserPage(d, v) !in h && !e.w
    requires vm1.dirs == SetPte(SetPte(vm, src, v, e), d, v, e).dirs
    ensures WritableUnshared(vm1, h[UserPage(d, v) := e.frame])
  {
    var h1 := h[UserPage(d, v) := e.frame];
    forall c, x | c in vm1.dirs && x in vm1.dirs[c].ptes && x < USERPAGES && vm1.dirs[c].ptes[x].w
      ensures Refs(h1, vm1.dirs[c].ptes[x].frame) == {UserPage(c, x)}
    {
      var g := vm1.dirs[c].ptes[x].frame;
      assert c in vm.dirs && x in vm.dirs[c].ptes && vm.dirs[c].ptes[x] == vm1.dirs[c].ptes[x];
      assert Refs(h, g) == {UserPage(c, x)};
      assert UserPage(src, v) in Refs(h, e.frame);
      RefsAdd(h, UserPage(d, v), e.frame, g);
    }
  }

  // Pages v .. hi-1 of src are all present.
  ghost predicate Present(vm: Vm, src: nat, v: nat, hi: nat)
    requires src in vm.dirs
  {
    forall x | v <= x < hi :: x in vm.dirs[src].ptes
  }

  ghost predicate Absent(vm: Vm, d: nat, v: nat)
    requires d in vm.dirs
  {
    forall x | v <= x < USERPAGES :: x !in vm.dirs[d].ptes
  }

  /** copyuvm's loop; it panics only on a missing page. */
  lemma {:induction false} CopyKeeps(vm: Vm, ext: Holds, src: nat, d: nat, v: nat, sz: nat, r: DirOutcome)
    requires VmInv(vm, ext) && vm.Wf() && src in vm.dirs && d in vm.dirs && src != d
    requires 0 in vm.dirs[d].tables && sz <= USERTOP && Absent(vm, d, v)
    requires r == CopyFrom(vm, src, d, v, sz)
    ensures r.DirPanic? || DupOk(vm, r, ext, src, d, v, PageRoundUp(sz))
    ensures Present(vm, src, v, PageRoundUp(sz)) ==> !r.DirPanic?
    ensures r.NewDir? ==> Present(vm, src, v, PageRoundUp(sz))
    decreases sz - v * PGSIZE
  {
    hide VmInv;
    hide DupOk;
    hide UserView;
    hide Keeps;
    hide MapPages;
    var hi := PageRoundUp(sz);
    if v * PGSIZE >= sz {
      DupNone(vm, ext, src, d, v, hi);
    } else if v in vm.dirs[src].ptes {
      var e := vm.dirs[src].ptes[v];
      UserPteOk(vm, ext, src, v);
      if Alloc(vm.km).OutOfMemory? {
        DupUndone(vm, ext, src, d, v, hi, r);
      } else {
        var f := Alloc(vm.km).frame;
        var vm0 := vm.(km := WritePage(Alloc(vm.km).km, f, Alloc(vm.km).km.mem[e.frame]));
        var vm1 := SetPte(vm0, d, v, Pte(f, e.w, e.u));
        MapOneUser(vm0, d, v, f, e.w, e.u);
        EagerStep(vm, ext, src, d, v, f, e, vm1);
        CopyKeeps(vm1, ext, src, d, v + 1, sz, r);
        if !r.DirPanic? { DupOne(vm, vm1, r, ext, src, d, v, hi); }
      }
    }
  }

  lemma UserPteOk(vm: Vm, ext: Holds, d: nat, v: nat)
    requires VmInv(vm, ext) && d in vm.dirs && v in vm.dirs[d].ptes && v < USERPAGES
    ensures vm.dirs[d].ptes[v].u && vm.dirs[d].ptes[v].frame < NFRAMES && 0 in vm.dirs[d].tables
  {
    hide Acct;
    hide DirHolds;
    UserFramesManaged(vm, ext, d, v);
    DirsOkFacts(vm.dirs, d);
    assert v / ENTRIES == 0;
  }

  /** cowuvm's loop never fails: it panics exactly on a missing page. */
  lemma {:induction false} CowKeeps(vm: Vm, ext: Holds, src: nat, d: nat, v: nat, sz: nat, r: DirOutcome)
    requires VmInv(vm, ext) && vm.Wf() && src in vm.dirs && d in vm.dirs && src != d
    requires 0 in vm.dirs[d].tables && sz <= USERTOP && Absent(vm, d, v)
    requires r == CowFrom(vm, src, d, v, sz)
    ensures r.DirPanic? || DupOk(vm, r, ext, src, d, v, PageRoundUp(sz))
    ensures r.NewDir? <==> Present(vm, src, v, PageRoundUp(sz))
    ensures r.DirPanic? <==> !Present(vm, src, v, PageRoundUp(sz))
    decreases sz - v * PGSIZE
  {
    hide VmInv;
    hide DupOk;
    hide UserView;
    hide Keeps;
    hide MapPages;
    var hi := PageRoundUp(sz);
    if v * PGSIZE >= sz {
      DupNone(vm, ext, src, d, v, hi);
    } else if v in vm.dirs[src].ptes {
      var e := vm.dirs[src].ptes[v].(w := false);
      UserPteOk(vm, ext, src, v);
      var vm0 := SetPte(vm, src, v, e);
      var vm1 := SetPte(vm0, d, v, e).(km := Inc(vm.km, e.frame));
      MapOneUser(vm0, d, v, e.frame, e.w, e.u);
      CowStep(vm, ext, src, d, v, e, vm1);
      CowKeeps(vm1, ext, src, d, v + 1, sz, r);
      if !r.DirPanic? { DupOne(vm, vm1, r, ext, src, d, v, hi); }
    }
  }

  // ---------------------------------------------------------------- page faults

  // A write fault on page v has to copy the frame and there is no free frame.
  ghost predicate FaultStarved(vm: Vm, d: nat, v: nat)
    requires vm.Wf() && d in vm.dirs
  {
    && v in vm.dirs[d].ptes && !vm.dirs[d].ptes[v].w && vm.dirs[d].ptes[v].frame < NFRAMES
    && vm.km.refcnt[vm.dirs[d].ptes[v].frame] > 1 && vm.km.freelist == []
  }

  /** Splitting a shared frame: the faulting page gets its own writable copy. */
  lemma FaultSplit(vm: Vm, ext: Holds, d: nat, v: nat, g: nat, f: nat, vm1: Vm)
    requires VmInv(vm, ext) && vm.Wf() && d in vm.dirs && v < USERPAGES && v in vm.dirs[d].ptes
    requires g == vm.dirs[d].ptes[v].frame && g < NFRAMES && vm.km.refcnt[g] > 1
    requires Alloc(vm.km).Allocated? && f == Alloc(vm.km).frame
    requires vm1 == SetPte(vm.(km := Dec(WritePage(Alloc(vm.km).km, f, Alloc(vm.km).km.mem[g]), g)), d, v, Pte(f, true, true))
    ensures VmInv(vm1, ext)
  {
    hide WritableUnshared;
    hide Acct;
    hide DirHolds;
    hide DirsOk;
    hide Dec;
    hide Refs;
    var h, t := AllHolds(vm, ext), UserPage(d, v);
    SplitHolds(vm.dirs, ext, d, v, f);
    PtesHeld(vm, ext);
    AllocFresh(vm.km, h);
    SplitAcct(vm.km, h, t, g, f);
    UnsharedSplit(vm, vm1, h, d, v, g, f);
    UserPteOk(vm, ext, d, v);
    DirsOkSplit(vm.dirs, d, v, f);
  }

  ghost predicate AllPtesHeld(vm: Vm, h: Holds) {
    forall e, x | e in vm.dirs && x in vm.dirs[e].ptes && x < USERPAGES ::
      UserPage(e, x) in h && h[UserPage(e, x)] == vm.dirs[e].ptes[x].frame
  }

  lemma PtesHeld(vm: Vm, ext: Holds)
    requires Stacks(ext)
    ensures AllPtesHeld(vm, AllHolds(vm, ext))
  {
  }

  lemma DirsOkSplit(dirs: map<nat, PageDir>, d: nat, v: nat, f: nat)
    requires DirsOk(dirs) && d in dirs && v < USERPAGES && 0 in dirs[d].tables
    ensures DirsOk(dirs[d := dirs[d].(ptes := dirs[d].ptes[v := Pte(f, true, true)])])
  {
    DirOkNewPte(dirs[d], v, Pte(f, true, true));
  }

  lemma SplitHolds(dirs: map<nat, PageDir>, ext: Holds, d: nat, v: nat, f: nat)
    requires Stacks(ext) && d in dirs && v < USERPAGES && v in dirs[d].ptes
    ensures var h := DirHolds(dirs) + ext;
      UserPage(d, v) in h && h[UserPage(d, v)] == dirs[d].ptes[v].frame
      && DirHolds(dirs[d := dirs[d].(ptes := dirs[d].ptes[v := Pte(f, true, true)])]) + ext == (h - {UserPage(d, v)})[UserPage(d, v) := f]
  {
    hide HeldBy;
    hide FrameOf;
    PteIsHeld(dirs, d, v);
    HoldsNewUserPte(dirs, ext, d, v, Pte(f, true, true));
    var h, t := DirHolds(dirs) + ext, UserPage(d, v);
    assert h[t := f] == (h - {t})[t := f];
  }

  lemma SplitAcct(km: Kmem, h: Holds, t: Holder, g: nat, f: nat)
    requires Acct(km, h) && t in h && h[t] == g && g < NFRAMES && km.refcnt[g] > 1
    requires Alloc(km).Allocated? && f == Alloc(km).frame
    ensures Acct(Dec(WritePage(Alloc(km).km, f, Alloc(km).km.mem[g]), g), (h - {t})[t := f])
  {
    var km0 := Dec(km, g);
    DecAcct(km, h, t);
    AllocFresh(km, h);
    assert g != f by { assert t in Refs(h, g); }
    assert Alloc(km0).Allocated? && Alloc(km0).frame == f;
    AllocAcct(km0, h - {t}, t);
    var km1 := Alloc(km0).km;
    WriteAcct(km1, (h - {t})[t := f], f, km1.mem[g]);
    SplitSame(km, g, f);
  }

  // dec_ref_cnt and kalloc of another frame commute.
  lemma SplitSame(km: Kmem, g: nat, f: nat)
    requires km.Wf() && g < NFRAMES && km.freelist != [] && f == km.freelist[0] && g != f && f < NFRAMES
    ensures var km1 := Alloc(Dec(km, g)).km;
      WritePage(km1, f, km1.mem[g]) == Dec(WritePage(Alloc(km).km, f, Alloc(km).km.mem[g]), g)
  {
  }

  lemma UnsharedSplit(vm: Vm, vm1: Vm, h: Holds, d: nat, v: nat, g: nat, f: nat)
    requires WritableUnshared(vm, h) && d in vm.dirs && v < USERPAGES
    requires UserPage(d, v) in h && h[UserPage(d, v)] == g && Refs(h, f) == {}
    requires AllPtesHeld(vm, h)
    requires vm1.dirs == vm.dirs[d := vm.dirs[d].(ptes := vm.dirs[d].ptes[v := Pte(f, true, true)])]
    ensures WritableUnshared(vm1, (h - {UserPage(d, v)})[UserPage(d, v) := f])
  {
    var t := UserPage(d, v);
    var h1 := (h - {t})[t := f];
    forall e, x | e in vm1.dirs && x in vm1.dirs[e].ptes && x < USERPAGES && vm1.dirs[e].ptes[x].w
      ensures Refs(h1, vm1.dirs[e].ptes[x].frame) == {UserPage(e, x)}
    {
      RefsAdd(h - {t}, t, f, vm1.dirs[e].ptes[x].frame);
      RefsRemove(h, t, vm1.dirs[e].ptes[x].frame);
      if e == d && x == v {
      } else {
        assert UserPage(e, x) in Refs(h, vm.dirs[e].ptes[x].frame);
        assert Refs(h, vm.dirs[e].ptes[x].frame) == {UserPage(e, x)};
      }
    }
  }

  /** A fault on the last reference only sets the write bit. */
  lemma FaultUnprotect(vm: Vm, ext: Holds, d: nat, v: nat, e: Pte, vm1: Vm)
    requires VmInv(vm, ext) && vm.Wf() && d in vm.dirs && v < USERPAGES && v in vm.dirs[d].ptes
    requires e == vm.dirs[d].ptes[v].(w := true) && e.frame < NFRAMES && vm.km.refcnt[e.frame] <= 1
    requires vm1 == SetPte(vm, d, v, e)
    ensures VmInv(vm1, ext)
  {
    hide DirsOk;
    hide Acct;
    hide DirHolds;
    hide Refs;
    var h, t := AllHolds(vm, ext), UserPage(d, v);
    UserPteOk(vm, ext, d, v);
    PtesHeld(vm, ext);
    SingleRef(vm.km, h, t);
    UnprotectHolds(vm.dirs, ext, d, v, e);
    DirsOkUnprotect(vm.dirs, d, v, e);
  }

  lemma SingleRef(km: Kmem, h: Holds, t: Holder)
    requires Acct(km, h) && km.Wf() && t in h && h[t] < NFRAMES && km.refcnt[h[t]] <= 1
    ensures Refs(h, h[t]) == {t}
  {
    var s := Refs(h, h[t]);
    assert t in s && |s| == km.refcnt[h[t]];
    assert s == (s - {t}) + {t};
    assert |s - {t}| == 0;
  }

  lemma UnprotectHolds(dirs: map<nat, PageDir>, ext: Holds, d: nat, v: nat, e: Pte)
    requires Stacks(ext) && d in dirs && v < USERPAGES && v in dirs[d].ptes && e.frame == dirs[d].ptes[v].frame
    ensures DirHolds(dirs[d := dirs[d].(ptes := dirs[d].ptes[v := e])]) + ext == DirHolds(dirs) + ext
  {
    hide HeldBy;
    hide FrameOf;
    PteIsHeld(dirs, d, v);
    HoldsNewUserPte(dirs, ext, d, v, e);
    var h, t := DirHolds(dirs) + ext, UserPage(d, v);
    assert t in h ==> h[t := e.frame] == h;
  }

  lemma DirsOkUnprotect(dirs: map<nat, PageDir>, d: nat, v: nat, e: Pte)
    requires DirsOk(dirs) && d in dirs && v < USERPAGES && 0 in dirs[d].tables && e.u
    ensures DirsOk(dirs[d := dirs[d].(ptes := dirs[d].ptes[v := e])])
  {
    DirOkNewPte(dirs[d], v, e);
  }

  lemma FaultView(vm: Vm, d: nat, v: nat, e: Pte, km1: Kmem, vm1: Vm)
    requires vm.Wf() && km1.Wf() && d in vm.dirs && v < USERPAGES && v in vm.dirs[d].ptes && vm.dirs[d].ptes[v].frame < NFRAMES
    requires vm1 == SetPte(vm.(km := km1), d, v, e) && e.frame < NFRAMES
    requires km1.mem[e.frame] == vm.km.mem[vm.dirs[d].ptes[v].frame]
    requires PagesKept(vm, km1, d, v)
    ensures UserView(vm1, d) == UserView(vm, d)
    ensures forall c | c in vm.dirs && c != d :: vm1.dirs[c] == vm.dirs[c] && UserView(vm1, c) == UserView(vm, c)
  {
  }

  // All directories keep their tables and what they show.
  ghost predicate SameViews(vm: Vm, vm1: Vm)
    requires vm.Wf() && vm1.Wf()
  {
    && vm1.dirs.Keys == vm.dirs.Keys && vm1.dataPage == vm.dataPage
    && forall c | c in vm.dirs :: UserView(vm1, c) == UserView(vm, c)
         && vm1.dirs[c].tables == vm.dirs[c].tables && vm1.dirs[c].ptes.Keys == vm.dirs[c].ptes.Keys
  }

  /** pgfltintr changes nothing anybody sees, keeps every count right, and makes the page
      writable. */
  lemma FaultKeeps(vm: Vm, ext: Holds, d: nat, v: nat, r: Outcome)
    requires VmInv(vm, ext) && vm.Wf() && d in vm.dirs && 0 in vm.dirs[d].tables && v < USERPAGES
    requires r == PageFault(vm, d, v) && !FaultStarved(vm, d, v)
    ensures r.Ok? && r.vm.Wf() && VmInv(r.vm, ext) && SameViews(vm, r.vm)
    ensures v in vm.dirs[d].ptes ==> r.vm.dirs[d].ptes[v].w
  {
    hide VmInv;
    hide UserView;
    assert v / ENTRIES == 0;
    if v in vm.dirs[d].ptes && !vm.dirs[d].ptes[v].w {
      var e := vm.dirs[d].ptes[v];
      UserPteOk(vm, ext, d, v);
      InvCountSmall(vm, ext, d, v);
      if vm.km.refcnt[e.frame] > 1 {
        var f := Alloc(vm.km).frame;
        var km1 := Dec(WritePage(Alloc(vm.km).km, f, Alloc(vm.km).km.mem[e.frame]), e.frame);
        FaultSplit(vm, ext, d, v, e.frame, f, r.vm);
        FaultPagesKept(vm, ext, d, v, f, km1);
        FaultView(vm, d, v, Pte(f, true, true), km1, r.vm);
      } else {
        FaultUnprotect(vm, ext, d, v, e.(w := true), r.vm);
        PagesSame(vm, ext, d, v);
        FaultView(vm, d, v, e.(w := true), vm.km, r.vm);
      }
    }
  }

  lemma InvCountSmall(vm: Vm, ext: Holds, d: nat, v: nat)
    requires VmInv(vm, ext) && vm.Wf() && d in vm.dirs && v in vm.dirs[d].ptes && v < USERPAGES
    ensures var f := vm.dirs[d].ptes[v].frame; f < NFRAMES && 0 < vm.km.refcnt[f] < INTMAX
  {
    hide DirHolds;
    hide WritableUnshared;
    hide DirsOk;
    UserFramesManaged(vm, ext, d, v);
    RefsBounded(AllHolds(vm, ext), vm.dirs[d].ptes[v].frame);
  }

  lemma PagesSame(vm: Vm, ext: Holds, d: nat, v: nat)
    requires VmInv(vm, ext) && vm.Wf()
    ensures PagesKept(vm, vm.km, d, v)
  {
    hide Acct;
    forall d1, v1 | d1 in vm.dirs && v1 in vm.dirs[d1].ptes && v1 < USERPAGES
      ensures vm.dirs[d1].ptes[v1].frame < NFRAMES
    {
      UserFramesManaged(vm, ext, d1, v1);
    }
  }

  lemma FaultPagesKept(vm: Vm, ext: Holds, d: nat, v: nat, f: nat, km1: Kmem)
    requires VmInv(vm, ext) && vm.Wf() && km1.Wf() && Alloc(vm.km).Allocated? && f == Alloc(vm.km).frame
    requires km1.lo == vm.km.lo && forall g | 0 <= g < NFRAMES && g != f :: km1.mem[g] == vm.km.mem[g]
    ensures PagesKept(vm, km1, d, v)
  {
    hide VmInv;
    hide Acct;
    InvAcct(vm, ext);
    AllocFresh(vm.km, AllHolds(vm, ext));
    UserFramesApart(vm, ext, f);
  }

  /** With no free frame to copy to, the unchecked kalloc breaks the accounting: pgfltintr
      keeps the invariant exactly when it is not starved. */
  lemma FaultExact(vm: Vm, ext: Holds, d: nat, v: nat)
    requires VmInv(vm, ext) && vm.Wf() && d in vm.dirs && 0 in vm.dirs[d].tables && v < USERPAGES
    ensures var r := PageFault(vm, d, v);
      (r.Ok? && VmInv(r.vm, ext)) <==> !FaultStarved(vm, d, v)
  {
    var r := PageFault(vm, d, v);
    if FaultStarved(vm, d, v) {
      hide Acct;
      InvCountSmall(vm, ext, d, v);
      if r.Ok? && VmInv(r.vm, ext) {
        assert r.vm.dirs[d].ptes[v].frame == 0;
        InvAcct(r.vm, ext);
        UserFramesManaged(r.vm, ext, d, v);
        assert false;
      }
    } else {
      FaultKeeps(vm, ext, d, v, r);
    }
  }
}
