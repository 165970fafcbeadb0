/** The Kernighan and Ritchie allocator of P5_XV6_CoW_Fork/user/umalloc.c on values: an
    address-ordered list of free blocks, first fit from a roving start, and coalescing. */
module Umalloc {
  import opened Wrappers

  // Addresses and sizes count headers (8 bytes). The static header base lies below the heap.
  const NULL: nat := 0
  const BASE: nat := 1
  const UNIT: nat := 8
  const UINT: nat := 0x1_0000_0000
  const CHUNK: nat := 4096

  // The first unit of a block is its header.
  datatype Block = Block(addr: nat, size: nat)

  predicate In(b: Block, u: nat) { b.addr <= u < b.addr + b.size }

  predicate Disjoint(a: Block, b: Block) { a.addr + a.size <= b.addr || b.addr + b.size <= a.addr }

  /** The free list in address order, base first.  Blocks do not overlap, and no two touch. */
  ghost predicate Ordered(l: seq<Block>) {
    && |l| >= 1 && l[0] == Block(BASE, 0)
    && (forall i | 1 <= i < |l| :: l[i].size >= 1)
    && (forall i, j | 0 <= i < j < |l| :: l[i].addr + l[i].size < l[j].addr)
  }

  // ---------------------------------------------------------------- free

  /** The last block before address a. */
  function Pos(l: seq<Block>, a: nat): (k: nat)
    requires Ordered(l) && a > BASE
    ensures k < |l| && l[k].addr < a && forall i | k < i < |l| :: l[i].addr >= a
  {
    if |l| == 1 || l[|l| - 1].addr < a then |l| - 1 else Pos(l[..|l| - 1], a)
  }

  predicate TouchesLeft(l: seq<Block>, k: nat, b: Block)
    requires k < |l|
  {
    l[k].addr + l[k].size == b.addr
  }

  predicate TouchesRight(l: seq<Block>, k: nat, b: Block)
    requires k < |l|
  {
    k + 1 < |l| && b.addr + b.size == l[k + 1].addr
  }

  // b joined to the blocks it touches.
  function Joined(l: seq<Block>, k: nat, b: Block): Block
    requires k < |l|
  {
    var b1 := if TouchesRight(l, k, b) then Block(b.addr, b.size + l[k + 1].size) else b;
    if TouchesLeft(l, k, b) then Block(l[k].addr, l[k].size + b1.size) else b1
  }

  function Splice(l: seq<Block>, lo: nat, hi: nat, b: Block): seq<Block>
    requires lo <= hi <= |l|
  {
    l[..lo] + ([b] + l[hi..])
  }

  /** The list with b inserted after its k-th block and joined to its neighbours. */
  function Insert(l: seq<Block>, k: nat, b: Block): seq<Block>
    requires k < |l|
  {
    Splice(l, if TouchesLeft(l, k, b) then k else k + 1, if TouchesRight(l, k, b) then k + 2 else k + 1, Joined(l, k, b))
  }

  ghost predicate Clear(l: seq<Block>, b: Block) {
    b.addr > BASE && b.size >= 1 && forall i | 0 <= i < |l| :: Disjoint(l[i], b)
  }

  ghost predicate InList(l: seq<Block>, u: nat) { exists i :: 0 <= i < |l| && In(l[i], u) }

  lemma SpliceOrdered(l: seq<Block>, lo: nat, hi: nat, b: Block)
    requires Ordered(l) && 1 <= lo <= hi <= |l| && b.size >= 1
    requires l[lo - 1].addr + l[lo - 1].size < b.addr && (hi < |l| ==> b.addr + b.size < l[hi].addr)
    ensures Ordered(Splice(l, lo, hi, b))
  {
    var l1 := Splice(l, lo, hi, b);
    forall i | 0 <= i < |l1| ensures l1[i] == if i < lo then l[i] else if i == lo then b else l[i - lo - 1 + hi] {}
    forall i, j | 0 <= i < j < |l1| ensures l1[i].addr + l1[i].size < l1[j].addr {
      assert i < lo - 1 ==> l[i].addr + l[i].size < l[lo - 1].addr;
      assert j > lo ==> j - lo - 1 + hi == hi || l[hi].addr + l[hi].size < l[j - lo - 1 + hi].addr;
    }
  }

  lemma InBoth(a: seq<Block>, b: seq<Block>, u: nat)
    ensures InList(a + b, u) <==> InList(a, u) || InList(b, u)
  {
    if InList(a, u) {
      var i :| 0 <= i < |a| && In(a[i], u);
      assert In((a + b)[i], u);
    }
    if InList(b, u) {
      var i :| 0 <= i < |b| && In(b[i], u);
      assert In((a + b)[|a| + i], u);
    }
  }

  lemma InOne(b: Block, u: nat)
    ensures InList([b], u) <==> In(b, u)
  {
    assert In(b, u) ==> In([b][0], u);
  }

  // The units of a splice, and of what it replaces.
  lemma SpliceUnits(l: seq<Block>, lo: nat, hi: nat, b: Block, u: nat)
    requires lo <= hi <= |l|
    ensures InList(Splice(l, lo, hi, b), u) <==> InList(l[..lo], u) || In(b, u) || InList(l[hi..], u)
    ensures InList(l, u) <==> InList(l[..lo], u) || InList(l[lo..hi], u) || InList(l[hi..], u)
  {
    hide InList;
    InBoth(l[..lo], [b] + l[hi..], u);
    InBoth([b], l[hi..], u);
    InOne(b, u);
    assert l[..lo] + (l[lo..hi] + l[hi..]) == l;
    InBoth(l[..lo], l[lo..hi] + l[hi..], u);
    InBoth(l[lo..hi], l[hi..], u);
  }

  /** free keeps the list ordered and joined. */
  lemma InsertOk(l: seq<Block>, b: Block)
    requires Ordered(l) && Clear(l, b)
    ensures Ordered(Insert(l, Pos(l, b.addr), b))
  {
    hide Pos;
    hide Disjoint;
    hide Joined;
    hide Splice;
    var k := Pos(l, b.addr);
    var lo, hi := if TouchesLeft(l, k, b) then k else k + 1, if TouchesRight(l, k, b) then k + 2 else k + 1;
    InsertBounds(l, k, b);
    SpliceOrdered(l, lo, hi, Joined(l, k, b));
  }

  lemma InsertBounds(l: seq<Block>, k: nat, b: Block)
    requires Ordered(l) && Clear(l, b) && k < |l| && l[k].addr < b.addr && (k + 1 < |l| ==> l[k + 1].addr >= b.addr)
    ensures var lo, hi := if TouchesLeft(l, k, b) then k else k + 1, if TouchesRight(l, k, b) then k + 2 else k + 1;
      && 1 <= lo <= hi <= |l| && l[lo - 1].addr + l[lo - 1].size < Joined(l, k, b).addr && Joined(l, k, b).size >= 1
      && (hi < |l| ==> Joined(l, k, b).addr + Joined(l, k, b).size < l[hi].addr)
  {
    assert Disjoint(l[k], b) && (k + 1 < |l| ==> Disjoint(l[k + 1], b));
  }

  /** And adds exactly the units of the block to it. */
  lemma InsertUnits(l: seq<Block>, b: Block, u: nat)
    requires Ordered(l) && Clear(l, b)
    ensures InList(Insert(l, Pos(l, b.addr), b), u) <==> InList(l, u) || In(b, u)
  {
    hide InList;
    hide Pos;
    var k := Pos(l, b.addr);
    var lo, hi := if TouchesLeft(l, k, b) then k else k + 1, if TouchesRight(l, k, b) then k + 2 else k + 1;
    SpliceUnits(l, lo, hi, Joined(l, k, b), u);
    ReplacedUnits(l, k, b, u);
  }

  lemma ReplacedUnits(l: seq<Block>, k: nat, b: Block, u: nat)
    requires k < |l| && Disjoint(l[k], b)
    ensures var lo, hi := if TouchesLeft(l, k, b) then k else k + 1, if TouchesRight(l, k, b) then k + 2 else k + 1;
      In(Joined(l, k, b), u) <==> InList(l[lo..hi], u) || In(b, u)
  {
    hide InList;
    InOne(l[k], u);
    assert l[k..k + 1] == [l[k]] && l[k + 1..k + 1] == [];
    InNone(u);
    if TouchesRight(l, k, b) {
      InOne(l[k + 1], u);
      assert l[k + 1..k + 2] == [l[k + 1]] && l[k..k + 2] == [l[k]] + [l[k + 1]];
      InBoth([l[k]], [l[k + 1]], u);
    }
  }

  lemma InNone(u: nat)
    ensures !InList([], u)
  {
  }

  // ---------------------------------------------------------------- malloc

  /** The first block of at least n units in the order k, k + 1, .., around to c; None if none is. */
  function FirstFit(l: seq<Block>, k: nat, c: nat, n: nat): (r: Option<nat>)
    requires k < |l| && c < |l|
    ensures r.Some? ==> r.value < |l| && l[r.value].size >= n
    decreases Around(|l|, k, c)
  {
    if l[k].size >= n then Some(k)
    else if k == c then None
    else FirstFit(l, Next(|l|, k), c, n)
  }

  function Next(len: nat, k: nat): (r: nat)
    requires k < len
    ensures r < len
  {
    if k + 1 == len then 0 else k + 1
  }

  function Prev(len: nat, k: nat): (r: nat)
    requires k < len
    ensures r < len && Next(len, r) == k
  {
    if k == 0 then len - 1 else k - 1
  }

  // Steps from k around the list to c.
  function Around(len: nat, k: nat, c: nat): (d: nat)
    requires k < len && c < len
    ensures k != c ==> d > 0 && d - 1 == (var n := Next(len, k); if n <= c then c - n else len - n + c)
  {
    if k <= c then c - k else len - k + c
  }

  // Block j comes in the order k, k + 1, .., around to c.
  predicate OnWay(len: nat, k: nat, c: nat, j: int)
    requires k < len && c < len
  {
    0 <= j < len && Around(len, k, j) <= Around(len, k, c)
  }

  /** First fit: it finds the nearest block that is big enough, and none only if none is. */
  lemma {:induction false} FirstFitNearest(l: seq<Block>, k: nat, c: nat, n: nat)
    requires k < |l| && c < |l|
    ensures match FirstFit(l, k, c, n)
      case None => forall j | OnWay(|l|, k, c, j) :: l[j].size < n
      case Some(r) => OnWay(|l|, k, c, r) && forall j | OnWay(|l|, k, c, j) && Around(|l|, k, j) < Around(|l|, k, r) :: l[j].size < n
    decreases Around(|l|, k, c)
  {
    if l[k].size < n && k != c { FirstFitNearest(l, Next(|l|, k), c, n); }
  }

  /** From the block after c around to c is everywhere. */
  lemma AllOnWay(len: nat, c: nat, j: nat)
    requires c < len && j < len
    ensures OnWay(len, Next(len, c), c, j)
  {
  }

  /** The list after n units are cut from the end of its k-th block. */
  function Cut(l: seq<Block>, k: nat, n: nat): seq<Block>
    requires k < |l| && l[k].size >= n
  {
    if l[k].size == n then l[..k] + l[k + 1..] else l[k := Block(l[k].addr, l[k].size - n)]
  }

  function CutBlock(l: seq<Block>, k: nat, n: nat): Block
    requires k < |l| && l[k].size >= n
  {
    Block(l[k].addr + l[k].size - n, n)
  }

  lemma CutOk(l: seq<Block>, k: nat, n: nat)
    requires Ordered(l) && k < |l| && l[k].size >= n >= 1
    ensures Ordered(Cut(l, k, n)) && Clear(Cut(l, k, n), CutBlock(l, k, n))
  {
    var l1 := Cut(l, k, n);
    if l[k].size == n { assert forall i | 0 <= i < |l1| :: l1[i] == if i < k then l[i] else l[i + 1]; }
  }

  /** A cut moves exactly the cut block's units out of the list. */
  lemma CutUnits(l: seq<Block>, k: nat, n: nat, u: nat)
    requires Ordered(l) && k < |l| && l[k].size >= n >= 1
    ensures InList(l, u) <==> InList(Cut(l, k, n), u) || In(CutBlock(l, k, n), u)
    ensures !(InList(Cut(l, k, n), u) && In(CutBlock(l, k, n), u))
  {
    hide InList;
    CutOk(l, k, n);
    ClearMeans(Cut(l, k, n), CutBlock(l, k, n), u);
    var b := Block(l[k].addr, l[k].size - n);
    SpliceUnits(l, k, k + 1, b, u);
    assert l[k..k + 1] == [l[k]];
    InOne(l[k], u);
    if l[k].size == n {
      InBoth(l[..k], l[k + 1..], u);
    } else {
      assert Cut(l, k, n) == Splice(l, k, k + 1, b);
    }
  }

  lemma ClearMeans(l: seq<Block>, b: Block, u: nat)
    requires Clear(l, b)
    ensures !(InList(l, u) && In(b, u))
  {
  }

  // ---------------------------------------------------------------- sizes

  /** malloc's unit count, in 32-bit arithmetic. */
  function Units(nbytes: nat): nat { (nbytes + UNIT - 1) % UINT / UNIT + 1 }

  /** A block of that many units holds the bytes, after its header, exactly up to 2^32 - 8. */
  lemma UnitsSuffice(nbytes: nat)
    requires nbytes < UINT
    ensures UNIT * (Units(nbytes) - 1) >= nbytes <==> nbytes <= UINT - 8
  {
  }

  // morecore's request.
  function Chunk(nu: nat): nat { if nu < CHUNK then CHUNK else nu }

  // The argument sbrk gets: nu * sizeof(Header) in 32 bits, as a signed int.
  function SbrkArg(nu: nat): int {
    var n := nu * UNIT % UINT;
    if n < UINT / 2 then n else n - UINT
  }

  /** sbrk is asked for what the request needs exactly up to 2^31 - 16 bytes, or when the unit
      count has wrapped around. */
  lemma SbrkArgExact(nbytes: nat)
    requires nbytes < UINT
    ensures SbrkArg(Chunk(Units(nbytes))) == UNIT * Chunk(Units(nbytes)) <==> nbytes <= UINT / 2 - 16 || nbytes > UINT - 8
  {
  }

  // ---------------------------------------------------------------- the heap

  /** l: the free list, empty before the first malloc.  c: the block freep points to.  live: the
      sizes of the allocated blocks.  units: all units got from sbrk. */
  datatype Heap = Heap(l: seq<Block>, c: nat, live: map<nat, nat>, units: set<nat>)

  ghost predicate InLive(live: map<nat, nat>, u: nat) { exists a :: a in live && In(Block(a, live[a]), u) }

  ghost predicate LiveOk(h: Heap) {
    && (forall a | a in h.live :: Clear(h.l, Block(a, h.live[a])))
    && (forall a, b | a in h.live && b in h.live && a != b :: Disjoint(Block(a, h.live[a]), Block(b, h.live[b])))
  }

  /** Free and allocated blocks tile what sbrk gave. */
  ghost predicate Tiled(h: Heap) { forall u: nat :: u in h.units <==> InList(h.l, u) || InLive(h.live, u) }

  ghost predicate HeapInv(h: Heap) {
    && (if h.l == [] then h.live == map[] else Ordered(h.l) && h.c < |h.l|)
    && LiveOk(h) && Tiled(h)
  }

  function Start(h: Heap): Heap { if h.l == [] then h.(l := [Block(BASE, 0)], c := 0) else h }

  function FreeOp(h: Heap, a: nat): Heap
    requires Ordered(h.l) && a in h.live && a > BASE
  {
    var k := Pos(h.l, a);
    h.(l := Insert(h.l, k, Block(a, h.live[a])), c := k, live := h.live - {a})
  }

  function Range(lo: nat, n: nat): (r: set<nat>)
    ensures forall u: nat :: u in r <==> lo <= u < lo + n
  {
    if n == 0 then {} else Range(lo, n - 1) + {lo + n - 1}
  }

  // sbrk's new units go through free.
  function More(h: Heap, nu: nat, at: nat): Heap
    requires Ordered(h.l) && at > BASE
  {
    var k := Pos(h.l, at);
    h.(l := Insert(h.l, k, Block(at, nu)), c := k, units := h.units + Range(at, nu))
  }

  function Take(h: Heap, k: nat, n: nat): Heap
    requires 1 <= k < |h.l| && h.l[k].size >= n
  {
    var b := CutBlock(h.l, k, n);
    h.(l := Cut(h.l, k, n), c := k - 1, live := h.live[b.addr := b.size])
  }

  // ---------------------------------------------------------------- every operation keeps the heap

  lemma StartOk(h: Heap)
    requires HeapInv(h)
    ensures HeapInv(Start(h)) && Ordered(Start(h).l)
  {
    if h.l == [] {
      forall u: nat ensures !InList(Start(h).l, u) {}
    }
  }

  lemma FreeKeeps(h: Heap, a: nat)
    requires HeapInv(h) && a in h.live
    ensures Ordered(h.l) && a > BASE && HeapInv(FreeOp(h, a)) && a !in FreeOp(h, a).live
  {
    hide Pos;
    hide Insert;
    hide InList;
    hide Ordered;
    var b := Block(a, h.live[a]);
    LiveNotEmpty(h, a);
    InsertOk(h.l, b);
    var h1 := FreeOp(h, a);
    forall u: nat ensures u in h1.units <==> InList(h1.l, u) || InLive(h1.live, u) {
      InsertUnits(h.l, b, u);
      LiveWithout(h.live, a, u);
    }
    forall d | d in h1.live ensures Clear(h1.l, Block(d, h1.live[d])) { ClearAfter(h, a, d); }
    InsertLonger(h.l, b);
  }

  lemma LiveNotEmpty(h: Heap, a: nat)
    requires HeapInv(h) && a in h.live
    ensures Ordered(h.l) && h.l != [] && a > BASE && Clear(h.l, Block(a, h.live[a]))
  {
  }

  lemma LiveWithout(live: map<nat, nat>, a: nat, u: nat)
    requires a in live
    ensures InLive(live, u) <==> InLive(live - {a}, u) || In(Block(a, live[a]), u)
  {
    if InLive(live, u) {
      var d :| d in live && In(Block(d, live[d]), u);
      if d != a { assert d in live - {a} && In(Block(d, (live - {a})[d]), u); }
    }
    if InLive(live - {a}, u) {
      var d :| d in live - {a} && In(Block(d, (live - {a})[d]), u);
      assert d in live && In(Block(d, live[d]), u);
    }
  }

  lemma InsertLonger(l: seq<Block>, b: Block)
    requires Ordered(l) && b.addr > BASE
    ensures Pos(l, b.addr) < |Insert(l, Pos(l, b.addr), b)|
  {
    hide Pos;
  }

  // A block that is clear of all the list's units is clear of the list.
  lemma ClearByUnits(l: seq<Block>, b: Block)
    requires Ordered(l) && b.addr > BASE && b.size >= 1
    requires forall u: nat | In(b, u) :: !InList(l, u)
    ensures Clear(l, b)
  {
    forall i | 0 <= i < |l| ensures Disjoint(l[i], b) {
      if !Disjoint(l[i], b) && i > 0 {
        var u := if l[i].addr >= b.addr then l[i].addr else b.addr;
        assert In(b, u) && In(l[i], u);
      }
    }
  }

  // Freeing a leaves the other live blocks clear of the list.
  lemma ClearAfter(h: Heap, a: nat, d: nat)
    requires HeapInv(h) && a in h.live && d in h.live && d != a && h.l != []
    ensures Clear(Insert(h.l, Pos(h.l, a), Block(a, h.live[a])), Block(d, h.live[d]))
  {
    hide Pos;
    hide Insert;
    hide InList;
    var b, e := Block(a, h.live[a]), Block(d, h.live[d]);
    InsertOk(h.l, b);
    forall u: nat | In(e, u) ensures !InList(Insert(h.l, Pos(h.l, a), b), u) {
      InsertUnits(h.l, b, u);
      ClearMeans(h.l, e, u);
    }
    ClearByUnits(Insert(h.l, Pos(h.l, a), b), e);
  }

  lemma TakeKeeps(h: Heap, k: nat, n: nat)
    requires HeapInv(h) && 1 <= k < |h.l| && h.l[k].size >= n >= 1
    ensures HeapInv(Take(h, k, n)) && CutBlock(h.l, k, n).addr !in h.live
    ensures forall d | d in h.live :: Disjoint(CutBlock(h.l, k, n), Block(d, h.live[d]))
  {
    hide InList;
    hide Cut;
    var b, h1 := CutBlock(h.l, k, n), Take(h, k, n);
    CutOk(h.l, k, n);
    CutShorter(h.l, k, n);
    forall d | d in h.live ensures Disjoint(b, Block(d, h.live[d])) && Clear(h1.l, Block(d, h.live[d])) { ClearAfterCut(h, k, n, d); }
    forall u: nat ensures u in h1.units <==> InList(h1.l, u) || InLive(h1.live, u) {
      CutUnits(h.l, k, n, u);
      LiveWithout(h1.live, b.addr, u);
      assert h1.live - {b.addr} == h.live;
    }
  }

  lemma CutShorter(l: seq<Block>, k: nat, n: nat)
    requires 1 <= k < |l| && l[k].size >= n
    ensures k - 1 < |Cut(l, k, n)|
  {
  }

  lemma ClearAfterCut(h: Heap, k: nat, n: nat, d: nat)
    requires HeapInv(h) && 1 <= k < |h.l| && h.l[k].size >= n >= 1 && d in h.live
    ensures Disjoint(CutBlock(h.l, k, n), Block(d, h.live[d])) && Clear(Cut(h.l, k, n), Block(d, h.live[d]))
  {
    hide InList;
    hide Cut;
    var e := Block(d, h.live[d]);
    CutOk(h.l, k, n);
    assert Disjoint(h.l[k], e);
    forall u: nat | In(e, u) ensures !InList(Cut(h.l, k, n), u) {
      CutUnits(h.l, k, n, u);
      ClearMeans(h.l, e, u);
    }
    ClearByUnits(Cut(h.l, k, n), e);
  }

  // Fresh memory lies beyond all the program has.
  ghost predicate Beyond(h: Heap, at: nat) { at > BASE && forall u | u in h.units :: u < at }

  lemma MoreKeeps(h: Heap, nu: nat, at: nat)
    requires HeapInv(h) && h.l != [] && nu >= 1 && Beyond(h, at)
    ensures HeapInv(More(h, nu, at)) && More(h, nu, at).live == h.live
  {
    hide Pos;
    hide Insert;
    hide InList;
    hide InLive;
    hide Ordered;
    var b := Block(at, nu);
    FreshClear(h, b);
    InsertOk(h.l, b);
    InsertLonger(h.l, b);
    var h1 := More(h, nu, at);
    forall u: nat ensures u in h1.units <==> InList(h1.l, u) || InLive(h1.live, u) { InsertUnits(h.l, b, u); }
    forall d | d in h1.live ensures Clear(h1.l, Block(d, h1.live[d])) { ClearAfterMore(h, b, d); }
  }

  lemma FreshClear(h: Heap, b: Block)
    requires HeapInv(h) && h.l != [] && b.size >= 1 && Beyond(h, b.addr)
    ensures Ordered(h.l) && Clear(h.l, b)
  {
    hide InLive;
    forall u: nat | In(b, u) ensures !InList(h.l, u) { assert u !in h.units; }
    ClearByUnits(h.l, b);
  }

  lemma ClearAfterMore(h: Heap, b: Block, d: nat)
    requires HeapInv(h) && h.l != [] && b.size >= 1 && Beyond(h, b.addr) && d in h.live && Clear(h.l, b)
    ensures Clear(Insert(h.l, Pos(h.l, b.addr), b), Block(d, h.live[d]))
  {
    hide Pos;
    hide Insert;
    hide InList;
    var e := Block(d, h.live[d]);
    InsertOk(h.l, b);
    forall u: nat | In(e, u) ensures !InList(Insert(h.l, Pos(h.l, b.addr), b), u) {
      InsertUnits(h.l, b, u);
      ClearMeans(h.l, e, u);
      assert InLive(h.live, u);
      assert u in h.units;
    }
    ClearByUnits(Insert(h.l, Pos(h.l, b.addr), b), e);
  }

  // After more memory some block fits, so the search ends the second time round.
  lemma MoreFits(h: Heap, nu: nat, at: nat, n: nat)
    requires HeapInv(h) && h.l != [] && nu >= n >= 1 && Beyond(h, at)
    ensures var h1 := More(h, nu, at);
      |h1.l| >= 1 && h1.c < |h1.l| && FirstFit(h1.l, Next(|h1.l|, h1.c), h1.c, n).Some?
  {
    hide Pos;
    hide InList;
    MoreKeeps(h, nu, at);
    var h1, k, b := More(h, nu, at), Pos(h.l, at), Block(at, nu);
    FreshClear(h, b);
    var j := if TouchesLeft(h.l, k, b) then k else k + 1;
    assert h1.l[j] == Joined(h.l, k, b) && h1.l[j].size >= n;
    FirstFitNearest(h1.l, Next(|h1.l|, h1.c), h1.c, n);
    AllOnWay(|h1.l|, h1.c, j);
  }

  /** Astray: sbrk was asked for no memory, or to take some back, and morecore takes its answer for
      new memory all the same.  left: the units the program still has. */
  datatype Result = Got(h: Heap, addr: nat) | Failed(h: Heap) | Astray(left: set<nat>)

  /** What sbrk leaves when its argument is not positive; at is its answer, the end of the memory
      before.  Taking back exactly everything is reported as a failure; taking back more is not
      done, and not reported. */
  function Left(units: set<nat>, at: Option<nat>, arg: int): set<nat>
    requires arg <= 0
  {
    if at.None? then {}
    else if -arg < UNIT * at.value then set u | u in units && u < at.value - (-arg) / UNIT
    else units
  }

  // A request that is not passed on as it is wraps around to at most 0.
  lemma WrongArg(nbytes: nat)
    requires nbytes < UINT && SbrkArg(Chunk(Units(nbytes))) != UNIT * Chunk(Units(nbytes))
    ensures SbrkArg(Chunk(Units(nbytes))) == UNIT * Units(nbytes) - UINT <= 0
  {
  }

  /** malloc; at is where sbrk would put new memory, if it can get any. */
  function Malloc(h: Heap, nbytes: nat, at: Option<nat>): Result
    requires HeapInv(h) && nbytes < UINT && (at.Some? ==> Beyond(h, at.value))
  {
    StartOk(h);
    var h0, n := Start(h), Units(nbytes);
    match FirstFit(h0.l, Next(|h0.l|, h0.c), h0.c, n)
    case Some(k) => Got(Take(h0, k, n), CutBlock(h0.l, k, n).addr)
    case None =>
      if SbrkArg(Chunk(n)) != UNIT * Chunk(n) then WrongArg(nbytes); Astray(Left(h0.units, at, SbrkArg(Chunk(n))))
      else if at.None? then Failed(h0)
      else
        MoreFits(h0, Chunk(n), at.value, n);
        MoreShape(h0, Chunk(n), at.value);
        var h1 := More(h0, Chunk(n), at.value);
        var k := FirstFit(h1.l, Next(|h1.l|, h1.c), h1.c, n).value;
        Got(Take(h1, k, n), CutBlock(h1.l, k, n).addr)
  }

  /** malloc keeps the heap; it fails only if no free block is big enough and sbrk has none; and
      what it returns is a block of the units asked for, apart from all that are allocated.
      Otherwise it goes astray: then no free block is big enough, and the header that morecore
      writes lies outside the memory the program has, or all memory is gone. */
  lemma MallocKeeps(h: Heap, nbytes: nat, at: Option<nat>)
    requires HeapInv(h) && nbytes < UINT && (at.Some? ==> Beyond(h, at.value))
    ensures match Malloc(h, nbytes, at)
      case Got(h1, a) =>
        && HeapInv(h1) && a !in h.live && h1.live == h.live[a := Units(nbytes)]
        && forall d | d in h.live :: Disjoint(Block(a, Units(nbytes)), Block(d, h.live[d]))
      case Failed(h1) => at.None? && HeapInv(h1) && h1.live == h.live && forall i | 0 <= i < |h.l| :: h.l[i].size < Units(nbytes)
      case Astray(left) => left <= h.units && if at.Some? then at.value !in left else left == {}
    ensures Malloc(h, nbytes, at).Astray? <==> (forall i | 0 <= i < |h.l| :: h.l[i].size < Units(nbytes)) && UINT / 2 - 16 < nbytes <= UINT - 8
  {
    hide Pos;
    hide InList;
    hide Tiled;
    hide LiveOk;
    hide FirstFit;
    hide Units;
    hide More;
    hide Take;
    hide SbrkArg;
    var h0, n := Start(h), Units(nbytes);
    StartOk(h);
    SbrkArgExact(nbytes);
    UnitsPositive(nbytes);
    FirstFitNearest(h0.l, Next(|h0.l|, h0.c), h0.c, n);
    match FirstFit(h0.l, Next(|h0.l|, h0.c), h0.c, n)
    case Some(k) => TakeKeeps(h0, k, n); TakeShape(h0, k, n); FitOnList(h, k, n);
    case None =>
      forall i: nat | i < |h0.l| ensures h0.l[i].size < n { AllOnWay(|h0.l|, h0.c, i); }
      if SbrkArg(Chunk(n)) == UNIT * Chunk(n) && at.Some? {
        MoreKeeps(h0, Chunk(n), at.value);
        MoreFits(h0, Chunk(n), at.value, n);
        var h1 := More(h0, Chunk(n), at.value);
        MoreShape(h0, Chunk(n), at.value);
        var k := FirstFit(h1.l, Next(|h1.l|, h1.c), h1.c, n).value;
        TakeKeeps(h1, k, n);
        TakeShape(h1, k, n);
      }
  }

  lemma FitOnList(h: Heap, k: nat, n: nat)
    requires k < |Start(h).l| && Start(h).l[k].size >= n >= 1
    ensures exists i :: 0 <= i < |h.l| && h.l[i].size >= n
  {
    assert k < |h.l|;
  }

  /** A request of 2^31 bytes, the first of a program, goes astray. */
  lemma BigRequestGoesAstray(at: nat)
    requires at > BASE
    ensures HeapInv(New()) && Malloc(New(), UINT / 2, Some(at)).Astray?
  {
    hide Malloc;
    NewOk();
    MallocKeeps(New(), UINT / 2, Some(at));
  }

  lemma UnitsPositive(nbytes: nat)
    ensures Units(nbytes) >= 1
  {
  }

  lemma TakeShape(h: Heap, k: nat, n: nat)
    requires 1 <= k < |h.l| && h.l[k].size >= n
    ensures Take(h, k, n).live == h.live[CutBlock(h.l, k, n).addr := n]
  {
  }

  lemma MoreShape(h: Heap, nu: nat, at: nat)
    requires HeapInv(h) && h.l != [] && nu >= 1 && Beyond(h, at)
    ensures More(h, nu, at).l != [] && Ordered(More(h, nu, at).l)
  {
    MoreKeeps(h, nu, at);
    InsertLonger(h.l, Block(at, nu));
  }

  // ---------------------------------------------------------------- runs

  datatype Event = DoMalloc(nbytes: nat, at: Option<nat>) | DoFree(a: nat)

  function New(): Heap { Heap([], 0, map[], {}) }

  /** After a run: the heap, or what is left when a malloc has gone astray; NoRun if an event is
      not a malloc or a free of a live block. */
  datatype Outcome = Whole(h: Heap) | Strayed(left: set<nat>, done: nat) | NoRun

  ghost function Run(h: Heap, run: seq<Event>): Outcome
    requires HeapInv(h)
    decreases |run|
  {
    if run == [] then Whole(h)
    else
      match run[0]
      case DoMalloc(nbytes, at) =>
        if nbytes >= UINT || (at.Some? && !Beyond(h, at.value)) then NoRun
        else
          MallocKeeps(h, nbytes, at);
          (match Malloc(h, nbytes, at)
           case Got(h1, _) => Later(Run(h1, run[1..]))
           case Failed(h1) => Later(Run(h1, run[1..]))
           case Astray(left) => Strayed(left, 0))
      case DoFree(a) => if a !in h.live then NoRun else FreeKeeps(h, a); Later(Run(FreeOp(h, a), run[1..]))
  }

  // One event later.
  function Later(o: Outcome): Outcome { if o.Strayed? then o.(done := o.done + 1) else o }

  lemma {:induction false} RunKeeps(h: Heap, run: seq<Event>)
    requires HeapInv(h)
    ensures match Run(h, run)
      case Whole(h1) => HeapInv(h1)
      case Strayed(left, k) => k < |run| && Run(h, run[..k]).Whole? && HeapInv(Run(h, run[..k]).h) && StraysAt(Run(h, run[..k]).h, run[k])
      case NoRun => true
    decreases |run|
  {
    hide HeapInv;
    hide Malloc;
    hide FreeOp;
    if run != [] && !Run(h, run).NoRun? {
      match run[0] {
        case DoMalloc(nbytes, at) =>
          MallocKeeps(h, nbytes, at);
          match Malloc(h, nbytes, at) {
            case Got(h1, _) => RunKeeps(h1, run[1..]);
            case Failed(h1) => RunKeeps(h1, run[1..]);
            case Astray(left) => assert run[..0] == [];
          }
        case DoFree(a) => FreeKeeps(h, a); RunKeeps(FreeOp(h, a), run[1..]);
      }
      if Run(h, run).Strayed? && Run(h, run).done > 0 {
        var k := Run(h, run).done;
        assert run[..k][1..] == run[1..][..k - 1] && run[..k][0] == run[0];
      }
    }
  }

  /** The event is a malloc of more than 2^31 - 16 and at most 2^32 - 8 bytes that no free block
      holds. */
  ghost predicate StraysAt(h: Heap, ev: Event) {
    && ev.DoMalloc? && UINT / 2 - 16 < ev.nbytes <= UINT - 8
    && forall i | 0 <= i < |h.l| :: h.l[i].size < Units(ev.nbytes)
  }

  /** After any run of mallocs and frees: the free blocks are in address order with no two
      touching, and free and allocated blocks tile what sbrk gave, without overlap; unless a
      malloc has gone astray, which only a request of that size does. */
  lemma HeapStructure(run: seq<Event>, u: nat)
    ensures HeapInv(New())
    ensures Run(New(), run).Strayed? ==>
      var k := Run(New(), run).done; k < |run| && Run(New(), run[..k]).Whole? && StraysAt(Run(New(), run[..k]).h, run[k])
    ensures Run(New(), run).Whole? ==>
      var h := Run(New(), run).h;
      && (h.l != [] ==> Ordered(h.l))
      && (u in h.units <==> InList(h.l, u) || InLive(h.live, u)) && !(InList(h.l, u) && InLive(h.live, u))
      && forall a, b | a in h.live && b in h.live && a != b :: Disjoint(Block(a, h.live[a]), Block(b, h.live[b]))
  {
    hide Run;
    NewOk();
    RunKeeps(New(), run);
    if Run(New(), run).Whole? {
      var h := Run(New(), run).h;
      if InLive(h.live, u) {
        var a :| a in h.live && In(Block(a, h.live[a]), u);
        ClearMeans(h.l, Block(a, h.live[a]), u);
      }
    }
  }

  lemma NewOk()
    ensures HeapInv(New())
  {
    forall u: nat ensures !InList(New().l, u) && !InLive(New().live, u) {}
  }
}
