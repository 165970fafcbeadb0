/** The physical page allocator with per-frame reference counts
    (P5_XV6_CoW_Fork/kernel/kalloc.c).

    A frame is a physical page number.  Frames from `lo` (the page after the kernel image)
    up to PHYSTOP are managed.  The state is a value; the class in CowKernel.dfy updates the
    same fields in place and is proved equal to the functions of this module. */
module Kalloc {
  const PGSIZE: nat := 4096
  const NFRAMES: nat := 4096  // the 16 MiB below PHYSTOP, in pages
  const USERPAGES: nat := 160  // USERTOP / PGSIZE
  const UINT: nat := 0x1_0000_0000
  const INTMAX: nat := 0x7fff_ffff

  type Byte = x: nat | x < 256
  type Page = p: seq<Byte> | |p| == PGSIZE witness seq(PGSIZE, i => 0)
  type Uint = x: nat | x < UINT

  // lo: the page after the kernel image, the first managed frame.
  datatype Kmem = Kmem(lo: nat, freelist: seq<nat>, refcnt: seq<Uint>, freePages: nat, mem: seq<Page>)
  {
    // The frames the allocator may hand out.
    predicate Managed(f: int) { lo <= f < NFRAMES }

    predicate Wf() {
      && 0 < lo <= NFRAMES && |refcnt| == NFRAMES && |mem| == NFRAMES
      && forall f | f in freelist :: f < NFRAMES
    }
  }

  datatype AllocResult = OutOfMemory | Allocated(km: Kmem, frame: nat)
  datatype FreeResult = Freed(km: Kmem) | FreePanic

  function ZeroPage(): Page { seq(PGSIZE, i => 0) }

  function JunkPage(): Page { seq(PGSIZE, i => 1) }

  // A 32-bit unsigned counter read back as a signed int.
  function AsInt(x: Uint): int { if x <= INTMAX then x else x - UINT }

  function Plus1(x: Uint): Uint { (x + 1) % UINT }

  function Minus1(x: Uint): Uint { (x - 1) % UINT }

  function PageRoundUp(n: nat): nat { (n + PGSIZE - 1) / PGSIZE }

  /** kfree_init: put one frame on the free list with count 0, filled with junk. */
  function KfreeInit(km: Kmem, f: nat): Kmem
    requires km.Wf() && f < NFRAMES
  {
    km.(mem := km.mem[f := JunkPage()], refcnt := km.refcnt[f := 0],
        freePages := km.freePages + 1, freelist := [f] + km.freelist)
  }

  /** kinit: release every frame from f up to PHYSTOP. */
  function KinitFrom(km: Kmem, f: nat): (r: Kmem)
    requires km.Wf()
    ensures r.Wf() && r.lo == km.lo
    decreases NFRAMES - f
  {
    if f >= NFRAMES then km else KinitFrom(KfreeInit(km, f), f + 1)
  }

  /** kalloc: pop the first free frame and give it count 1; its contents are left alone. */
  function Alloc(km: Kmem): (r: AllocResult)
    requires km.Wf()
    ensures r.Allocated? ==> r.km.Wf() && r.frame < NFRAMES
  {
    if km.freelist == [] then OutOfMemory
    else
      var f := km.freelist[0];
      assert f in km.freelist && forall g | g in km.freelist[1..] :: g in km.freelist;
      Allocated(km.(freelist := km.freelist[1..], refcnt := km.refcnt[f := 1],
                    freePages := if km.freePages == 0 then UINT - 1 else km.freePages - 1), f)
  }

  /** kfree: drop one reference; only the last one returns the frame to the free list. */
  function Free(km: Kmem, f: nat): (r: FreeResult)
    requires km.Wf()
    ensures r.Freed? ==> r.km.Wf()
  {
    if !km.Managed(f) then FreePanic
    else if AsInt(km.refcnt[f]) > 1 then Freed(km.(refcnt := km.refcnt[f := Minus1(km.refcnt[f])]))
    else if AsInt(km.refcnt[f]) == 1 then
      Freed(km.(refcnt := km.refcnt[f := Minus1(km.refcnt[f])], mem := km.mem[f := JunkPage()],
                freePages := km.freePages + 1, freelist := [f] + km.freelist))
    else FreePanic
  }

  function Inc(km: Kmem, f: nat): Kmem
    requires km.Wf() && f < NFRAMES
  {
    km.(refcnt := km.refcnt[f := Plus1(km.refcnt[f])])
  }

  function Dec(km: Kmem, f: nat): Kmem
    requires km.Wf() && f < NFRAMES
  {
    km.(refcnt := km.refcnt[f := Minus1(km.refcnt[f])])
  }

  function WritePage(km: Kmem, f: nat, p: Page): Kmem
    requires km.Wf() && f < NFRAMES
  {
    km.(mem := km.mem[f := p])
  }

  // ---------------------------------------------------------------- holders of frames

  /** Everything in the kernel that can hold a reference to a managed frame. */
  datatype Holder =
    | UserPage(dir: nat, page: nat)   // a present user PTE
    | TablePage(dir: nat, pdx: nat)   // a page-table page of a directory
    | DirPage(dir: nat)               // a page directory itself
    | KStack(pid: nat)                // a kernel stack (pid 0: the boot stack)

  // Which frame each holder holds.
  type Holds = map<Holder, nat>

  ghost function Refs(h: Holds, f: int): set<Holder> { set r | r in h && h[r] == f }

  ghost predicate NoDup(s: seq<nat>) { forall i, j :: 0 <= i < j < |s| ==> s[i] != s[j] }

  ghost predicate HolderOk(r: Holder) { r.UserPage? ==> r.dir < NFRAMES && r.page < USERPAGES }

  /** The free list is exactly the duplicate-free list of managed frames with count 0,
      and the free-page counter is its length. */
  ghost predicate FreeListOk(km: Kmem) {
    && km.Wf()
    && NoDup(km.freelist)
    && (forall f :: f in km.freelist <==> km.Managed(f) && km.refcnt[f] == 0)
    && km.freePages == |km.freelist|
  }

  /** The reference count of every managed frame is the number of its holders. */
  ghost predicate CountsOk(km: Kmem, h: Holds) {
    && km.Wf()
    && (forall r | r in h :: HolderOk(r) && km.Managed(h[r]))
    && (forall f | km.Managed(f) :: km.refcnt[f] == |Refs(h, f)|)
  }

  /** Only user PTEs ever share a frame. */
  ghost predicate Exclusive(h: Holds) {
    forall r, r' | r in h && r' in h && r != r' && h[r] == h[r'] :: r.UserPage? && r'.UserPage?
  }

  ghost predicate Acct(km: Kmem, h: Holds) {
    FreeListOk(km) && CountsOk(km, h) && Exclusive(h)
  }

  ghost function FreeSet(km: Kmem): set<nat> { Elems(km.freelist) }

  ghost function CountZero(km: Kmem): set<nat>
    requires km.Wf()
  {
    set f | km.lo <= f < NFRAMES && km.refcnt[f] == 0
  }

  ghost function Elems(s: seq<nat>): set<nat> { set x | x in s }

  lemma {:induction false} NoDupSize(s: seq<nat>)
    requires NoDup(s)
    ensures |Elems(s)| == |s|
  {
    if s != [] {
      var t, x := s[..|s| - 1], s[|s| - 1];
      assert s == t + [x];
      NoDupSize(t);
      assert Elems(s) == Elems(t) + {x};
      assert x !in t;
    }
  }

  /** free_pages = length of the free list = number of managed frames with count 0. */
  lemma FreePagesCountsFrames(km: Kmem)
    requires FreeListOk(km)
    ensures km.freePages == |km.freelist| == |CountZero(km)| && FreeSet(km) == CountZero(km)
  {
    NoDupSize(km.freelist);
    assert Elems(km.freelist) == CountZero(km) == FreeSet(km);
  }

  lemma RefsAdd(h: Holds, r: Holder, f: nat, g: int)
    requires r !in h
    ensures Refs(h[r := f], g) == if g == f then Refs(h, g) + {r} else Refs(h, g)
  {
  }

  lemma RefsRemove(h: Holds, r: Holder, g: int)
    requires r in h
    ensures Refs(h - {r}, g) == Refs(h, g) - {r}
  {
  }

  // ---------------------------------------------------------------- counters do not wrap

  ghost function Code(r: Holder): int
  {
    if r.UserPage? then r.dir * USERPAGES + r.page else 0
  }

  lemma {:induction false} BoundedSetSize(s: set<int>, n: nat)
    requires forall x | x in s :: 0 <= x < n
    ensures |s| <= n
  {
    if n == 0 {
      assert forall x :: x !in s;
    } else {
      BoundedSetSize(s - {n - 1}, n - 1);
      assert s - {n - 1} == if n - 1 in s then s - {n - 1} else s;
    }
  }

  lemma {:induction false} ImageSize(s: set<Holder>)
    requires forall r | r in s :: r.UserPage? && HolderOk(r)
    ensures |s| == |set r | r in s :: Code(r)|
  {
    if s != {} {
      var r0 :| r0 in s;
      ImageSize(s - {r0});
      var image := set r | r in s :: Code(r);
      var rest := set r | r in s - {r0} :: Code(r);
      assert image == rest + {Code(r0)};
      forall r | r in s - {r0} ensures Code(r) != Code(r0) {
        CodeInjective(r, r0);
      }
    }
  }

  lemma CodeInjective(r: Holder, q: Holder)
    requires r.UserPage? && q.UserPage? && HolderOk(r) && HolderOk(q) && r != q
    ensures Code(r) != Code(q)
  {
    if r.dir < q.dir {
      assert (r.dir + 1) * USERPAGES <= q.dir * USERPAGES;
    } else if q.dir < r.dir {
      assert (q.dir + 1) * USERPAGES <= r.dir * USERPAGES;
    }
  }

  /** A 32-bit count never overflows: a frame has at most NFRAMES * USERPAGES holders. */
  lemma RefsBounded(h: Holds, f: nat)
    requires forall r | r in h :: HolderOk(r)
    requires Exclusive(h)
    ensures |Refs(h, f)| <= NFRAMES * USERPAGES < INTMAX
  {
    var s := Refs(h, f);
    if r0 :| r0 in s && !r0.UserPage? {
      assert s == {r0};
    } else {
      ImageSize(s);
      var image := set r | r in s :: Code(r);
      forall x | x in image ensures 0 <= x < NFRAMES * USERPAGES {
        var r :| r in s && Code(r) == x;
        assert r.dir * USERPAGES <= (NFRAMES - 1) * USERPAGES;
      }
      BoundedSetSize(image, NFRAMES * USERPAGES);
    }
  }

  // ---------------------------------------------------------------- each allocator step

  /** kalloc succeeds exactly when some managed frame has count 0, and hands out a frame
      nobody holds, with its old contents. */
  lemma AllocFresh(km: Kmem, h: Holds)
    requires Acct(km, h)
    ensures Alloc(km).OutOfMemory? <==> CountZero(km) == {}
    ensures Alloc(km).Allocated? ==>
              var f, km1 := Alloc(km).frame, Alloc(km).km;
              && km.Managed(f) && Refs(h, f) == {}
              && km1.mem == km.mem && km1.lo == km.lo && km1.Wf()
              && FreeSet(km1) == FreeSet(km) - {f}
  {
    FreePagesCountsFrames(km);
    if km.freelist != [] {
      var f, km1 := Alloc(km).frame, Alloc(km).km;
      assert f in km.freelist;
      assert km.freelist == [f] + km1.freelist;
      assert f !in km1.freelist;
    } else {
      assert Elems(km.freelist) == {};
    }
  }

  /** The allocated frame may be given to any new holder. */
  lemma AllocAcct(km: Kmem, h: Holds, r: Holder)
    requires Acct(km, h) && r !in h && HolderOk(r) && Alloc(km).Allocated?
    ensures Acct(Alloc(km).km, h[r := Alloc(km).frame])
  {
    AllocFresh(km, h);
    var f, km1 := Alloc(km).frame, Alloc(km).km;
    assert km.freelist == [f] + km1.freelist;
    var h1 := h[r := f];
    forall g | km.Managed(g) ensures km1.refcnt[g] == |Refs(h1, g)| {
      RefsAdd(h, r, f, g);
    }
    forall q, q' | q in h1 && q' in h1 && q != q' && h1[q] == h1[q']
      ensures q.UserPage? && q'.UserPage?
    {
      assert q in h && h[q] == f ==> q in Refs(h, f);
      assert q' in h && h[q'] == f ==> q' in Refs(h, f);
    }
    assert f in km.freelist;
    AllocFreeList(km, km1, f);
  }

  lemma AllocFreeList(km: Kmem, km1: Kmem, f: nat)
    requires FreeListOk(km) && km.freelist != [] && f == km.freelist[0] && km1.freelist == km.freelist[1..]
    requires f < NFRAMES && km1 == km.(freelist := km1.freelist, refcnt := km.refcnt[f := 1], freePages := km.freePages - 1)
    ensures FreeListOk(km1)
  {
    forall g ensures g in km1.freelist <==> km1.Managed(g) && km1.refcnt[g] == 0 {
      assert km.freelist == [f] + km1.freelist;
      assert g in km.freelist <==> g == f || g in km1.freelist;
      if g in km1.freelist {
        var i :| 0 <= i < |km1.freelist| && km1.freelist[i] == g;
        assert km.freelist[i + 1] == g;
      }
    }
    forall i, j | 0 <= i < j < |km1.freelist| ensures km1.freelist[i] != km1.freelist[j] {
      assert km1.freelist[i] == km.freelist[i + 1] && km1.freelist[j] == km.freelist[j + 1];
    }
  }

  /** Dropping a held reference never panics; the frame becomes free exactly when the
      reference was the last one, and no frame that is still held changes. */
  lemma FreeAcct(km: Kmem, h: Holds, r: Holder)
    requires Acct(km, h) && r in h
    ensures Free(km, h[r]).Freed?
    ensures Acct(Free(km, h[r]).km, h - {r})
    ensures Free(km, h[r]).km.lo == km.lo
    ensures h[r] in FreeSet(Free(km, h[r]).km) <==> Refs(h, h[r]) == {r}
    ensures forall g | 0 <= g < NFRAMES && Refs(h - {r}, g) != {} :: Free(km, h[r]).km.mem[g] == km.mem[g]
  {
    var f := h[r];
    RefsBounded(h, f);
    assert r in Refs(h, f);
    RefsRemove(h, r, f);
    if km.refcnt[f] == 1 {
      FreeLast(km, h, r);
    } else {
      assert |Refs(h - {r}, f)| == |Refs(h, f)| - 1;
      DecAcct(km, h, r);
    }
  }

  lemma FreeLast(km: Kmem, h: Holds, r: Holder)
    requires Acct(km, h) && r in h && km.refcnt[h[r]] == 1
    ensures Free(km, h[r]).Freed? && Acct(Free(km, h[r]).km, h - {r})
    ensures Refs(h, h[r]) == {r} && h[r] in FreeSet(Free(km, h[r]).km)
  {
    var f := h[r];
    assert r in Refs(h, f);
    assert Refs(h, f) == {r} + (Refs(h, f) - {r});
    var km1 := Free(km, f).km;
    assert f !in km.freelist;
    FreeListPush(km, km1, f);
    forall g | km.Managed(g) ensures km1.refcnt[g] == |Refs(h - {r}, g)| {
      RefsRemove(h, r, g);
    }
  }

  lemma FreeListPush(km: Kmem, km1: Kmem, f: nat)
    requires FreeListOk(km) && km1.Wf() && km1.lo == km.lo && km.Managed(f) && f !in km.freelist
    requires km1.freelist == [f] + km.freelist && km1.freePages == km.freePages + 1
    requires km1.refcnt == km.refcnt[f := 0]
    ensures FreeListOk(km1)
  {
    forall g ensures g in km1.freelist <==> km1.Managed(g) && km1.refcnt[g] == 0 {
      assert g in km1.freelist <==> g == f || g in km.freelist;
    }
  }

  // A count that stays above 0 does not concern the free list.
  lemma FreeListKept(km: Kmem, f: nat, c: Uint)
    requires FreeListOk(km) && km.Managed(f) && km.refcnt[f] != 0 && c != 0
    ensures FreeListOk(km.(refcnt := km.refcnt[f := c]))
  {
    var km1 := km.(refcnt := km.refcnt[f := c]);
    forall g ensures g in km1.freelist <==> km1.Managed(g) && km1.refcnt[g] == 0 {
      assert g in km.freelist <==> km.Managed(g) && km.refcnt[g] == 0;
    }
  }

  lemma ExclusiveAdd(h: Holds, r: Holder, f: nat)
    requires Exclusive(h) && r.UserPage? && forall q | q in Refs(h, f) :: q.UserPage?
    ensures Exclusive(h[r := f])
  {
    assert forall q | q in h :: h[q] == f ==> q in Refs(h, f);
  }

  lemma ExclusiveLess(h: Holds, r: Holder)
    requires Exclusive(h)
    ensures Exclusive(h - {r})
  {
  }

  /** inc_ref_cnt accounts for one more user PTE on an already shared user frame. */
  lemma IncAcct(km: Kmem, h: Holds, r: Holder, f: nat)
    requires Acct(km, h) && r !in h && HolderOk(r) && r.UserPage? && km.Managed(f)
    requires Refs(h, f) != {} && forall q | q in Refs(h, f) :: q.UserPage?
    ensures Acct(Inc(km, f), h[r := f])
  {
    RefsBounded(h, f);
    var km1 := Inc(km, f);
    assert km.refcnt[f] == |Refs(h, f)|;
    assert km1.refcnt[f] == km.refcnt[f] + 1;
    FreeListKept(km, f, km1.refcnt[f]);
    hide Exclusive;
    hide FreeListOk;
    ExclusiveAdd(h, r, f);
    forall g | km.Managed(g) ensures km1.refcnt[g] == |Refs(h[r := f], g)| {
      RefsAdd(h, r, f, g);
    }
  }

  /** dec_ref_cnt gives up a reference that is not the last one. */
  lemma DecAcct(km: Kmem, h: Holds, r: Holder)
    requires Acct(km, h) && r in h && km.refcnt[h[r]] > 1
    ensures Acct(Dec(km, h[r]), h - {r})
  {
    var f := h[r];
    RefsBounded(h, f);
    assert r in Refs(h, f);
    var km1 := Dec(km, f);
    FreeListKept(km, f, km1.refcnt[f]);
    hide Exclusive;
    hide FreeListOk;
    ExclusiveLess(h, r);
    forall g | km.Managed(g) ensures km1.refcnt[g] == |Refs(h - {r}, g)| {
      RefsRemove(h, r, g);
    }
  }

  lemma WriteAcct(km: Kmem, h: Holds, f: nat, p: Page)
    requires Acct(km, h) && f < NFRAMES
    ensures Acct(WritePage(km, f, p), h)
  {
    assert WritePage(km, f, p).freelist == km.freelist;
  }

  /** kinit from an empty free list: afterwards every managed frame is free, once. */
  lemma {:induction false} KinitAcct(km: Kmem, f: nat)
    requires km.Wf() && km.lo <= f <= NFRAMES
    requires NoDup(km.freelist) && km.freePages == |km.freelist|
    requires forall g :: g in km.freelist <==> km.lo <= g < f
    requires forall g | km.lo <= g < f :: km.refcnt[g] == 0
    ensures Acct(KinitFrom(km, f), map[]) && KinitFrom(km, f).lo == km.lo
    decreases NFRAMES - f
  {
    if f < NFRAMES {
      var k1 := KfreeInit(km, f);
      assert forall g :: g in k1.freelist <==> g == f || g in km.freelist;
      assert f !in km.freelist && NoDup(k1.freelist);
      KinitAcct(k1, f + 1);
    } else {
      forall g ensures Refs(map[], g) == {} { }
    }
  }

  // ---------------------------------------------------------------- which frame, and what is in it

  /** kinit leaves the highest frame first. */
  lemma {:induction false} KinitOrder(km: Kmem, f: nat)
    requires km.Wf() && km.lo <= f <= NFRAMES && |km.freelist| == f - km.lo && forall i | 0 <= i < |km.freelist| :: km.freelist[i] == f - 1 - i
    ensures var l := KinitFrom(km, f).freelist; |l| == 4096 - km.lo && forall i | 0 <= i < |l| :: l[i] == 4095 - i
    decreases NFRAMES - f
  {
    if f < NFRAMES { KinitOrder(KfreeInit(km, f), f + 1); }
  }

  /** A frame that kfree gives back is filled with ones, and is the next that kalloc hands out, with
      count 1 and its contents as they are. */
  lemma FreeThenAlloc(km: Kmem, h: Holds, r: Holder)
    requires Acct(km, h) && r in h && km.refcnt[h[r]] == 1
    ensures Free(km, h[r]).Freed? && Alloc(Free(km, h[r]).km).Allocated?
    ensures var f, km1 := h[r], Free(km, h[r]).km; var a := Alloc(km1);
      && (forall i | 0 <= i < 4096 :: km1.mem[f][i] == 1) && (forall g | 0 <= g < NFRAMES && g != f :: km1.mem[g] == km.mem[g])
      && a.frame == f && a.km.mem == km1.mem && a.km.freelist == km.freelist && a.km.refcnt[f] == 1
  {
    hide Exclusive;
  }
}
