/** What malloc and free of P5_XV6_CoW_Fork/user/umalloc.c do to the free list, block by block. */
module UmallocLaws {
  import opened Wrappers
  import opened Umalloc

  /** malloc asks for as few units as hold the bytes after a header; above 2^32 - 8 bytes the count
      has wrapped around to one. */
  lemma UnitsLeast(nbytes: nat)
    requires nbytes < UINT
    ensures nbytes <= 0xFFFF_FFF8 ==> 8 * (Units(nbytes) - 1) >= nbytes > 8 * (Units(nbytes) - 2)
    ensures nbytes > 0xFFFF_FFF8 ==> Units(nbytes) == 1
  {
  }

  /** Block k of the list l is the first of at least n units, going round from the one after c. */
  ghost predicate First(l: seq<Block>, c: nat, n: nat, k: nat) {
    && c < |l| && k < |l| && l[k].size >= n
    && forall j | 0 <= j < |l| && (if c < k then c < j < k else j > c || j < k) :: l[j].size < n
  }

  // Blocks that come before k from the one after c.
  lemma NearerIs(len: nat, c: nat, k: nat, j: nat)
    requires c < len && k < len && j < len
    ensures Around(len, Next(len, c), j) < Around(len, Next(len, c), k) <==> (if c < k then c < j < k else j > c || j < k)
  {
  }

  lemma FirstFitIs(l: seq<Block>, c: nat, n: nat)
    requires c < |l|
    ensures match FirstFit(l, Next(|l|, c), c, n)
      case None => forall j | 0 <= j < |l| :: l[j].size < n
      case Some(k) => First(l, c, n, k)
  {
    hide FirstFit;
    hide Next;
    hide Around;
    FirstFitNearest(l, Next(|l|, c), c, n);
    match FirstFit(l, Next(|l|, c), c, n)
    case None => forall j | 0 <= j < |l| ensures l[j].size < n { AllOnWay(|l|, c, j); }
    case Some(k) =>
      forall j | 0 <= j < |l| && (if c < k then c < j < k else j > c || j < k) ensures l[j].size < n {
        NearerIs(|l|, c, k, j);
        AllOnWay(|l|, c, j);
      }
  }

  /** The block at a, of n units, is the end of block k of l, or all of it; what is left of block k
      stays where it was; freep points to the block before it. */
  ghost predicate Served(l: seq<Block>, c: nat, n: nat, k: nat, h1: Heap, a: nat) {
    && First(l, c, n, k) && k >= 1 && a + n == l[k].addr + l[k].size && h1.c == k - 1
    && (if l[k].size == n then |h1.l| == |l| - 1 && (forall i | 0 <= i < k :: h1.l[i] == l[i]) && (forall i | k < i < |l| :: h1.l[i - 1] == l[i])
        else |h1.l| == |l| && h1.l[k] == Block(l[k].addr, l[k].size - n) && forall i | 0 <= i < |l| && i != k :: h1.l[i] == l[i])
  }

  lemma TakeServes(h: Heap, k: nat, n: nat)
    requires 1 <= k < |h.l| && n >= 1 && First(h.l, h.c, n, k)
    ensures Served(h.l, h.c, n, k, Take(h, k, n), CutBlock(h.l, k, n).addr) && Take(h, k, n).units == h.units
  {
  }

  lemma FitNotBase(h: Heap, k: nat, n: nat)
    requires Ordered(h.l) && n >= 1 && First(h.l, h.c, n, k)
    ensures k >= 1
  {
  }

  // The list and freep malloc's first search goes round; the base alone at the first call.
  ghost function Free0(h: Heap): (seq<Block>, nat) { if h.l == [] then ([Block(1, 0)], 0) else (h.l, h.c) }

  // The list l1 has what l has and nu units from at on, and freep points to the last block before them.
  ghost predicate Refilled(l: seq<Block>, l1: seq<Block>, c1: nat, at: nat, nu: nat) {
    && Ordered(l1) && (forall u: nat :: InList(l1, u) <==> InList(l, u) || at <= u < at + nu)
    && c1 < |l1| && l1[c1].addr < at && forall i | c1 < i < |l1| :: l1[i].addr >= at
  }

  /** Which block malloc returns: with a free block that is big enough, the end of the first such one
      from freep on, and no memory is asked for; with none, it gets 4096 units, or as many as it needs if
      those are more, puts them on the list, and serves the request from there. */
  lemma MallocServes(h: Heap, nbytes: nat, at: Option<nat>)
    requires HeapInv(h) && nbytes < UINT && (at.Some? ==> Beyond(h, at.value)) && Malloc(h, nbytes, at).Got?
    ensures var (h1, a, n, l, c) := (Malloc(h, nbytes, at).h, Malloc(h, nbytes, at).addr, Units(nbytes), Free0(h).0, Free0(h).1);
      if exists i :: 0 <= i < |l| && l[i].size >= n then h1.units == h.units && exists k :: Served(l, c, n, k, h1, a)
      else
        && at.Some? && (forall u: nat :: u in h1.units <==> u in h.units || at.value <= u < at.value + (if n < 4096 then 4096 else n))
        && exists l1, c1, k :: Refilled(l, l1, c1, at.value, if n < 4096 then 4096 else n) && Served(l1, c1, n, k, h1, a)
  {
    hide Pos;
    hide InList;
    hide Tiled;
    hide LiveOk;
    hide FirstFit;
    hide Units;
    hide More;
    hide Take;
    hide SbrkArg;
    hide Served;
    hide Refilled;
    hide Ordered;
    hide First;
    var h0, n := Start(h), Units(nbytes);
    StartOk(h);
    UnitsPositive(nbytes);
    assert Free0(h) == (h0.l, h0.c);
    FirstFitIs(h0.l, h0.c, n);
    match FirstFit(h0.l, Next(|h0.l|, h0.c), h0.c, n)
    case Some(k) =>
      FitNotBase(h0, k, n);
      TakeServes(h0, k, n);
      assert h0.l[k].size >= n;
    case None =>
      var nu := if n < 4096 then 4096 else n;
      MoreFits(h0, nu, at.value, n);
      MoreShape(h0, nu, at.value);
      MoreRefills(h0, nu, at.value);
      var h1 := More(h0, nu, at.value);
      FirstFitIs(h1.l, h1.c, n);
      var k := FirstFit(h1.l, Next(|h1.l|, h1.c), h1.c, n).value;
      FitNotBase(h1, k, n);
      TakeServes(h1, k, n);
  }

  lemma MoreRefills(h: Heap, nu: nat, at: nat)
    requires HeapInv(h) && h.l != [] && nu >= 1 && Beyond(h, at)
    ensures Refilled(h.l, More(h, nu, at).l, More(h, nu, at).c, at, nu)
    ensures forall u: nat :: u in More(h, nu, at).units <==> u in h.units || at <= u < at + nu
  {
    hide InList;
    hide Tiled;
    hide LiveOk;
    hide Pos;
    var b, h1 := Block(at, nu), More(h, nu, at);
    FreshClear(h, b);
    InsertOk(h.l, b);
    forall u: nat ensures InList(h1.l, u) <==> InList(h.l, u) || at <= u < at + nu { InsertUnits(h.l, b, u); }
    RoverBefore(h.l, b);
  }

  // After an insertion freep points to the last block before the inserted one.
  lemma RoverBefore(l: seq<Block>, b: Block)
    requires Ordered(l) && Clear(l, b)
    ensures var k, l1 := Pos(l, b.addr), Insert(l, Pos(l, b.addr), b);
      k < |l1| && l1[k].addr < b.addr && forall i | k < i < |l1| :: l1[i].addr >= b.addr
  {
    hide Pos;
    hide Ordered;
    InsertLonger(l, b);
    OrderedStarts(l, Pos(l, b.addr));
  }

  lemma OrderedStarts(l: seq<Block>, k: nat)
    requires Ordered(l) && k < |l|
    ensures forall i | k < i < |l| :: l[i].addr > l[k].addr
  {
  }

  /** free: the block's units, and nothing else, join the list; the block is no longer allocated, and
      freep points to the last block before it. */
  lemma FreeReturns(h: Heap, a: nat)
    requires HeapInv(h) && a in h.live
    ensures Ordered(h.l) && a > BASE
    ensures var h1 := FreeOp(h, a);
      && Refilled(h.l, h1.l, h1.c, a, h.live[a]) && h1.units == h.units
      && h1.live.Keys == h.live.Keys - {a} && forall d | d in h1.live :: h1.live[d] == h.live[d]
  {
    hide InList;
    hide Tiled;
    hide LiveOk;
    hide Pos;
    hide Insert;
    LiveNotEmpty(h, a);
    var b, h1 := Block(a, h.live[a]), FreeOp(h, a);
    InsertOk(h.l, b);
    forall u: nat ensures InList(h1.l, u) <==> InList(h.l, u) || a <= u < a + h.live[a] { InsertUnits(h.l, b, u); }
    RoverBefore(h.l, b);
  }
}
