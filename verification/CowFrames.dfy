/** How many frames the virtual-memory functions take (P5_XV6_CoW_Fork/kernel/vm.c). */
module CowFrames {
  import opened Kalloc
  import opened Vm
  import opened VmProofs

  // A directory and its page tables.
  const DIR_FRAMES: nat := 13

  ghost function Tables(vm: Vm, d: nat): set<nat>
    requires d in vm.dirs
  {
    vm.dirs[d].tables.Keys
  }

  // The free frames and the page tables of d: only their sum does not change while d grows.
  ghost function Stock(vm: Vm, d: nat): nat
    requires d in vm.dirs
  {
    |vm.km.freelist| + |Tables(vm, d)|
  }

  lemma WalkStock(vm: Vm, d: nat, v: nat, r: Outcome)
    requires vm.Wf() && d in vm.dirs && r == WalkCreate(vm, d, v)
    ensures Stock(r.vm, d) == Stock(vm, d)
    ensures r.Ok? ==> Tables(r.vm, d) == Tables(vm, d) + {v / ENTRIES}
    ensures r.Fail? ==> r.vm == vm && vm.km.freelist == [] && v / ENTRIES !in Tables(vm, d)
  {
    if v / ENTRIES !in vm.dirs[d].tables && Alloc(vm.km).Allocated? {
      assert Tables(r.vm, d) == Tables(vm, d) + {v / ENTRIES};
    } else if r.Ok? {
      assert Tables(vm, d) == Tables(vm, d) + {v / ENTRIES};
    }
  }

  /** The page tables that n pages from v on lie in. */
  ghost function Covering(v: nat, n: nat): set<nat> {
    if n == 0 then {} else FromTo(v / ENTRIES, (v + n - 1) / ENTRIES)
  }

  ghost function FromTo(lo: nat, hi: nat): (s: set<nat>)
    ensures forall x: nat :: x in s <==> lo <= x <= hi
    decreases hi - lo
  {
    if lo > hi then {} else {lo} + FromTo(lo + 1, hi)
  }

  lemma CoveringNext(v: nat, n: nat)
    requires n > 0
    ensures Covering(v, n) == {v / ENTRIES} + Covering(v + 1, n - 1)
  {
  }

  // The tables of need are there, or the memory ran out before they all were.
  ghost predicate Took(vm: Vm, vm1: Vm, d: nat, need: set<nat>, done: bool) {
    && d in vm.dirs && d in vm1.dirs && Stock(vm1, d) == Stock(vm, d)
    && (if done then Tables(vm1, d) == Tables(vm, d) + need
        else vm1.km.freelist == [] && Tables(vm1, d) <= Tables(vm, d) + need && !(need <= Tables(vm1, d)))
  }

  lemma TookBoth(a: Vm, b: Vm, c: Vm, d: nat, first: set<nat>, second: set<nat>, done: bool)
    requires Took(a, b, d, first, true) && Took(b, c, d, second, done)
    ensures Took(a, c, d, first + second, done)
  {
  }

  lemma {:induction false} MapTook(vm: Vm, d: nat, v: nat, n: nat, f: nat, w: bool, u: bool, r: Outcome)
    requires vm.Wf() && d in vm.dirs && r == MapPages(vm, d, v, n, f, w, u) && !r.Panic?
    ensures Took(vm, r.vm, d, Covering(v, n), r.Ok?)
    decreases n
  {
    hide WalkCreate;
    hide Covering;
    hide Took;
    if n == 0 {
      CoveringNone(v);
      TookNone(vm, d);
    } else {
      CoveringNext(v, n);
      var walked := WalkCreate(vm, d, v);
      WalkStock(vm, d, v, walked);
      if walked.Ok? {
        var vm2 := SetPte(walked.vm, d, v, Pte(f, w, u));
        TookOne(vm, vm2, d, v / ENTRIES);
        MapTook(vm2, d, v + 1, n - 1, f + 1, w, u, r);
        TookBoth(vm, vm2, r.vm, d, {v / ENTRIES}, Covering(v + 1, n - 1), r.Ok?);
      } else {
        TookOut(vm, d, v / ENTRIES, Covering(v + 1, n - 1));
      }
    }
  }

  lemma CoveringNone(v: nat)
    ensures Covering(v, 0) == {}
  {
  }

  lemma TookNone(vm: Vm, d: nat)
    requires d in vm.dirs
    ensures Took(vm, vm, d, {}, true)
  {
  }

  lemma TookOne(vm: Vm, vm1: Vm, d: nat, x: nat)
    requires d in vm.dirs && d in vm1.dirs && Stock(vm1, d) == Stock(vm, d) && Tables(vm1, d) == Tables(vm, d) + {x}
    ensures Took(vm, vm1, d, {x}, true)
  {
  }

  lemma TookOut(vm: Vm, d: nat, x: nat, rest: set<nat>)
    requires d in vm.dirs && vm.km.freelist == [] && x !in Tables(vm, d)
    ensures Took(vm, vm, d, {x} + rest, false)
  {
    assert x in {x} + rest;
  }

  /** The page tables of the kernel mappings from i on. */
  ghost function KernelTables(dataPage: nat, i: nat): set<nat>
    requires KmapsOk(dataPage) && i <= 4
    decreases 4 - i
  {
    if i == 4 then {}
    else
      var k := KmapEntry(dataPage, i);
      KmapLayout(dataPage, i, k);
      Covering(k.lo, k.hi - k.lo) + KernelTables(dataPage, i + 1)
  }

  // The first four, for 16 MiB of memory, and the last eight, for the devices.
  const KERNEL_TABLES: set<nat> := {0, 1, 2, 3, 1016, 1017, 1018, 1019, 1020, 1021, 1022, 1023}

  lemma KernelTablesAre(dataPage: nat)
    requires KmapsOk(dataPage)
    ensures KernelTables(dataPage, 0) == KERNEL_TABLES && |KERNEL_TABLES| == DIR_FRAMES - 1
  {
    hide FromTo;
    hide Covering;
    hide KernelTables;
    RangesCover(dataPage);
    FourKernelTables(dataPage);
    TablesOf(dataPage);
    SplitAt(dataPage / ENTRIES, (dataPage - 1) / ENTRIES);
    TwelveTables();
  }

  lemma TablesOf(dataPage: nat)
    requires KmapsOk(dataPage)
    ensures var e, last := dataPage / ENTRIES, (dataPage - 1) / ENTRIES; last <= 3 && e <= 3 && (e == last || e == last + 1)
  {
  }

  lemma TwelveTables()
    ensures |KERNEL_TABLES| == DIR_FRAMES - 1
  {
  }

  lemma RangesCover(dataPage: nat)
    requires KmapsOk(dataPage)
    ensures Covering(USERPAGES, 0x100 - USERPAGES) == FromTo(0, 0)
    ensures Covering(0x100, dataPage - 0x100) == FromTo(0, (dataPage - 1) / ENTRIES)
    ensures Covering(dataPage, NFRAMES - dataPage) == FromTo(dataPage / ENTRIES, 3)
    ensures Covering(0xFE000, 0x2000) == FromTo(1016, 1023)
  {
    hide FromTo;
  }

  lemma SplitAt(e: nat, last: nat)
    requires last <= 3 && e <= 3 && (e == last || e == last + 1)
    ensures FromTo(0, 0) + (FromTo(0, last) + (FromTo(e, 3) + (FromTo(1016, 1023) + {}))) == KERNEL_TABLES
  {
    hide FromTo;
    var s := FromTo(0, 0) + (FromTo(0, last) + (FromTo(e, 3) + (FromTo(1016, 1023) + {})));
    forall x: nat ensures x in s <==> x in KERNEL_TABLES {
      assert x in s <==> x <= 3 || 1016 <= x <= 1023;
    }
  }

  lemma FourKernelTables(dataPage: nat)
    requires KmapsOk(dataPage)
    ensures KernelTables(dataPage, 0) ==
      Covering(USERPAGES, 0x100 - USERPAGES) +
      (Covering(0x100, dataPage - 0x100) + (Covering(dataPage, NFRAMES - dataPage) + (Covering(0xFE000, 0x2000) + {})))
  {
    hide Covering;
    assert KernelTables(dataPage, 4) == {};
    assert KernelTables(dataPage, 3) == Covering(0xFE000, 0x2000) + {};
    assert KernelTables(dataPage, 2) == Covering(dataPage, NFRAMES - dataPage) + KernelTables(dataPage, 3);
    assert KernelTables(dataPage, 1) == Covering(0x100, dataPage - 0x100) + KernelTables(dataPage, 2);
  }

  lemma {:induction false} SetupTook(vm: Vm, d: nat, i: nat, r: DirOutcome)
    requires vm.Wf() && d in vm.dirs && KmapsOk(vm.dataPage) && i <= 4 && r == SetupFrom(vm, d, i) && !r.DirPanic?
    ensures Took(vm, r.vm, d, KernelTables(vm.dataPage, i), r.NewDir?)
    decreases 4 - i
  {
    hide MapPages;
    hide Covering;
    hide Took;
    hide KmapEntry;
    if i == 4 {
      TookNone(vm, d);
    } else {
      var k := KmapEntry(vm.dataPage, i);
      KmapLayout(vm.dataPage, i, k);
      var mapped := MapPages(vm, d, k.lo, k.hi - k.lo, k.lo, k.w, false);
      MapTook(vm, d, k.lo, k.hi - k.lo, k.lo, k.w, false, mapped);
      if mapped.Ok? {
        SetupTook(mapped.vm, d, i + 1, r);
        TookBoth(vm, mapped.vm, r.vm, d, Covering(k.lo, k.hi - k.lo), KernelTables(vm.dataPage, i + 1), r.NewDir?);
      } else {
        TookLess(vm, mapped.vm, d, Covering(k.lo, k.hi - k.lo), KernelTables(vm.dataPage, i + 1));
      }
    }
  }

  lemma TookLess(vm: Vm, vm1: Vm, d: nat, first: set<nat>, second: set<nat>)
    requires Took(vm, vm1, d, first, false)
    ensures Took(vm, vm1, d, first + second, false)
  {
  }

  lemma {:induction false} ProperSubset(a: set<nat>, b: set<nat>, x: nat)
    requires a <= b && x in b && x !in a
    ensures |a| < |b|
  {
    if a != {} {
      var y :| y in a;
      ProperSubset(a - {y}, b - {y}, x);
    }
  }

  /** setupkvm succeeds exactly if 13 frames are free, and takes that many. */
  lemma SetupFrames(vm: Vm, ext: Holds)
    requires VmInv(vm, ext) && vm.Wf() && KmapsOk(vm.dataPage)
    ensures SetupKvm(vm).NewDir? <==> |vm.km.freelist| >= DIR_FRAMES
    ensures SetupKvm(vm).NewDir? ==> |SetupKvm(vm).vm.km.freelist| == |vm.km.freelist| - DIR_FRAMES
  {
    hide VmInv;
    hide SetupFrom;
    hide Keeps;
    hide KernelTables;
    var r := SetupKvm(vm);
    SetupKvmKeeps(vm, ext, r);
    if Alloc(vm.km).Allocated? {
      var d := Alloc(vm.km).frame;
      var vm1 := vm.(km := WritePage(Alloc(vm.km).km, d, ZeroPage()), dirs := vm.dirs[d := PageDir(map[], map[])]);
      SetupTook(vm1, d, 0, r);
      KernelTablesAre(vm.dataPage);
      var need := KernelTables(vm.dataPage, 0);
      assert Tables(vm1, d) == {} && {} + need == need;
      if !r.NewDir? {
        var x :| x in need && x !in Tables(r.vm, d);
        ProperSubset(Tables(r.vm, d), need, x);
      }
    }
  }

  // ---------------------------------------------------------------- user pages

  // The entries of d below v are as before.
  ghost predicate SameBelow(vm: Vm, vm1: Vm, d: nat, v: nat) {
    d in vm.dirs && d in vm1.dirs
    && forall x | x < v && x in vm.dirs[d].ptes :: x in vm1.dirs[d].ptes && vm1.dirs[d].ptes[x] == vm.dirs[d].ptes[x]
  }

  /** With enough free frames allocuvm takes one for each page, and moves no page mapped before. */
  lemma {:induction false} AllocFrames(vm: Vm, d: nat, v: nat, oldsz: nat, newsz: nat, r: SizeOutcome)
    requires vm.Wf() && d in vm.dirs && 0 in vm.dirs[d].tables && newsz <= USERTOP && Absent(vm, d, v)
    requires v <= PageRoundUp(newsz) <= v + |vm.km.freelist| && r == AllocFrom(vm, d, v, oldsz, newsz)
    ensures r.Size? && r.sz == newsz && |r.vm.km.freelist| == |vm.km.freelist| - (PageRoundUp(newsz) - v)
    ensures SameBelow(vm, r.vm, d, v)
    decreases newsz - v * PGSIZE
  {
    hide MapPages;
    if v * PGSIZE < newsz {
      var km1, f := Alloc(vm.km).km, Alloc(vm.km).frame;
      var vm0 := vm.(km := WritePage(km1, f, ZeroPage()));
      var vm1 := SetPte(vm0, d, v, Pte(f, true, true));
      MapOneUser(vm0, d, v, f, true, true);
      AllocFrames(vm1, d, v + 1, oldsz, newsz, r);
    }
  }

  /** cowuvm's loop takes no frame: parent and child have the same behind every page. */
  lemma {:induction false} ShareFrames(vm: Vm, src: nat, d: nat, v: nat, sz: nat, r: DirOutcome)
    requires vm.Wf() && src in vm.dirs && d in vm.dirs && src != d && 0 in vm.dirs[d].tables && sz <= USERTOP && Absent(vm, d, v)
    requires r == CowFrom(vm, src, d, v, sz) && r.NewDir?
    ensures r.vm.km.freelist == vm.km.freelist && SameBelow(vm, r.vm, src, v) && SameBelow(vm, r.vm, d, v)
    ensures forall x | v <= x < PageRoundUp(sz) ::
              x in r.vm.dirs[src].ptes && x in r.vm.dirs[d].ptes && r.vm.dirs[src].ptes[x].frame == r.vm.dirs[d].ptes[x].frame
    decreases sz - v * PGSIZE
  {
    hide MapPages;
    hide SameBelow;
    if v * PGSIZE < sz {
      var e := vm.dirs[src].ptes[v].(w := false);
      var vm0 := SetPte(vm, src, v, e);
      var vm1 := SetPte(vm0, d, v, e).(km := Inc(vm.km, e.frame));
      CowTurn(vm, src, d, v, e, vm0, vm1);
      MapOneUser(vm0, d, v, e.frame, e.w, e.u);
      ShareFrames(vm1, src, d, v + 1, sz, r);
      BelowNext(vm, vm1, r.vm, src, v);
      BelowNext(vm, vm1, r.vm, d, v);
    } else {
      BelowSelf(vm, src, v);
      BelowSelf(vm, d, v);
    }
  }

  lemma CowTurn(vm: Vm, src: nat, d: nat, v: nat, e: Pte, vm0: Vm, vm1: Vm)
    requires vm.Wf() && src in vm.dirs && d in vm.dirs && src != d && 0 in vm.dirs[d].tables && Absent(vm, d, v)
    requires v in vm.dirs[src].ptes && e.frame == vm.dirs[src].ptes[v].frame < NFRAMES
    requires vm0 == SetPte(vm, src, v, e) && d in vm0.dirs && vm1 == SetPte(vm0, d, v, e).(km := Inc(vm.km, e.frame))
    ensures vm0.Wf() && vm0.km == vm.km && src in vm0.dirs && d in vm0.dirs && vm0.dirs[d] == vm.dirs[d]
    ensures vm1.Wf() && src in vm1.dirs && d in vm1.dirs && vm1.dirs[d].tables == vm.dirs[d].tables && Absent(vm1, d, v + 1)
    ensures vm1.km.freelist == vm.km.freelist
    ensures vm1.dirs[src].ptes == vm.dirs[src].ptes[v := e] && vm1.dirs[d].ptes == vm.dirs[d].ptes[v := e]
  {
  }

  lemma BelowNext(vm: Vm, vm1: Vm, vm2: Vm, d: nat, v: nat)
    requires d in vm.dirs && d in vm1.dirs && SameBelow(vm1, vm2, d, v + 1) && v in vm1.dirs[d].ptes
    requires vm1.dirs[d].ptes == vm.dirs[d].ptes[v := vm1.dirs[d].ptes[v]]
    ensures SameBelow(vm, vm2, d, v) && v in vm2.dirs[d].ptes && vm2.dirs[d].ptes[v] == vm1.dirs[d].ptes[v]
  {
  }

  lemma BelowSelf(vm: Vm, d: nat, v: nat)
    requires d in vm.dirs
    ensures SameBelow(vm, vm, d, v)
  {
  }

  // ---------------------------------------------------------------- the eager copy

  // The pages are there, in frames that exist.
  ghost predicate Backed(vm: Vm, src: nat, v: nat, hi: nat)
    requires src in vm.dirs
  {
    forall x | v <= x < hi :: x in vm.dirs[src].ptes && vm.dirs[src].ptes[x].frame < NFRAMES
  }

  /** copyuvm's loop succeeds exactly if there is a free frame for each page, and takes those. */
  lemma {:induction false} CopyTook(vm: Vm, src: nat, d: nat, v: nat, sz: nat, r: DirOutcome)
    requires vm.Wf() && src in vm.dirs && d in vm.dirs && src != d && 0 in vm.dirs[d].tables && sz <= USERTOP && Absent(vm, d, v)
    requires v <= PageRoundUp(sz) && Backed(vm, src, v, PageRoundUp(sz)) && r == CopyFrom(vm, src, d, v, sz)
    ensures r.NewDir? <==> |vm.km.freelist| >= PageRoundUp(sz) - v
    ensures r.NewDir? ==> |r.vm.km.freelist| == |vm.km.freelist| - (PageRoundUp(sz) - v)
    decreases sz - v * PGSIZE
  {
    hide MapPages;
    hide FreeVm;
    if v * PGSIZE < sz && Alloc(vm.km).Allocated? {
      var e, f := vm.dirs[src].ptes[v], Alloc(vm.km).frame;
      var vm0 := vm.(km := WritePage(Alloc(vm.km).km, f, Alloc(vm.km).km.mem[e.frame]));
      MapOneUser(vm0, d, v, f, e.w, e.u);
      CopyTook(SetPte(vm0, d, v, Pte(f, e.w, e.u)), src, d, v + 1, sz, r);
    }
  }

  // ---------------------------------------------------------------- what setupkvm maps

  lemma {:induction false} MapEntries(vm: Vm, d: nat, v: nat, n: nat, f: nat, w: bool, u: bool, r: Outcome)
    requires vm.Wf() && d in vm.dirs && r == MapPages(vm, d, v, n, f, w, u) && r.Ok?
    ensures forall x :: x in r.vm.dirs[d].ptes <==> x in vm.dirs[d].ptes || v <= x < v + n
    ensures forall x | x in r.vm.dirs[d].ptes ::
              r.vm.dirs[d].ptes[x] == if v <= x < v + n then Pte(f + (x - v), w, u) else vm.dirs[d].ptes[x]
    decreases n
  {
    hide Alloc;
    if n > 0 {
      var vm1 := WalkCreate(vm, d, v).vm;
      assert vm1.dirs[d].ptes == vm.dirs[d].ptes;
      MapEntries(SetPte(vm1, d, v, Pte(f, w, u)), d, v + 1, n - 1, f + 1, w, u, r);
    }
  }

  // What the kernel ranges from i on map.
  ghost predicate InKmap(dataPage: nat, i: nat, x: nat)
    requires KmapsOk(dataPage) && i <= 4
    decreases 4 - i
  {
    i < 4 && (KmapEntry(dataPage, i).lo <= x < KmapEntry(dataPage, i).hi || InKmap(dataPage, i + 1, x))
  }

  lemma {:induction false} SetupEntries(vm: Vm, d: nat, i: nat, r: DirOutcome)
    requires vm.Wf() && d in vm.dirs && KmapsOk(vm.dataPage) && i <= 4 && r == SetupFrom(vm, d, i) && r.NewDir?
    ensures forall x :: x in r.vm.dirs[d].ptes <==> x in vm.dirs[d].ptes || InKmap(vm.dataPage, i, x)
    ensures forall x | x in r.vm.dirs[d].ptes && !InKmap(vm.dataPage, i, x) :: r.vm.dirs[d].ptes[x] == vm.dirs[d].ptes[x]
    ensures forall x | InKmap(vm.dataPage, i, x) :: r.vm.dirs[d].ptes[x] == Pte(x, x < 0x100 || vm.dataPage <= x, false)
    decreases 4 - i
  {
    hide MapPages;
    if i < 4 {
      var k := KmapEntry(vm.dataPage, i);
      KmapLayout(vm.dataPage, i, k);
      var mapped := MapPages(vm, d, k.lo, k.hi - k.lo, k.lo, k.w, false);
      MapEntries(vm, d, k.lo, k.hi - k.lo, k.lo, k.w, false, mapped);
      SetupEntries(mapped.vm, d, i + 1, r);
    }
  }

  /** setupkvm maps every page of memory above the user part, and the devices, to itself, for the
      kernel only; all but the kernel's text writable. */
  lemma KernelMapped(vm: Vm, x: nat)
    requires vm.Wf() && KmapsOk(vm.dataPage) && SetupKvm(vm).NewDir?
    ensures var p := SetupKvm(vm).vm.dirs[SetupKvm(vm).dir];
      && (x in p.ptes <==> 160 <= x < 4096 || 0xFE000 <= x < 0x10_0000)
      && (x in p.ptes ==> p.ptes[x].frame == x && !p.ptes[x].u && (p.ptes[x].w <==> !(256 <= x < vm.dataPage)))
  {
    hide SetupFrom;
    var d := Alloc(vm.km).frame;
    var vm1 := vm.(km := WritePage(Alloc(vm.km).km, d, ZeroPage()), dirs := vm.dirs[d := PageDir(map[], map[])]);
    SetupEntries(vm1, d, 0, SetupKvm(vm));
    assert InKmap(vm.dataPage, 0, x) <==> 160 <= x < 4096 || 0xFE000 <= x < 0x10_0000 by {
      assert !InKmap(vm.dataPage, 4, x);
      assert InKmap(vm.dataPage, 3, x) <==> 0xFE000 <= x < 0x10_0000;
      assert InKmap(vm.dataPage, 2, x) <==> vm.dataPage <= x < 4096 || InKmap(vm.dataPage, 3, x);
      assert InKmap(vm.dataPage, 1, x) <==> 256 <= x < vm.dataPage || InKmap(vm.dataPage, 2, x);
    }
  }
}
