/** umalloc.c of P5_XV6_CoW_Fork/user as it changes headers and freep in place, proved against
    the operations of Umalloc. */
module UmallocKernel {
  import opened Wrappers
  import opened Umalloc

  // Block i of l has its size and a pointer to the next block, the last back to the first.
  ghost predicate LinkedAt(l: seq<Block>, ptr: map<nat, nat>, size: map<nat, nat>, i: nat)
    requires i < |l|
  {
    && l[i].addr in ptr && ptr[l[i].addr] == l[Next(|l|, i)].addr
    && l[i].addr in size && size[l[i].addr] == l[i].size
  }

  /** The headers hold the list l as a circle. */
  ghost predicate Linked(l: seq<Block>, ptr: map<nat, nat>, size: map<nat, nat>) {
    forall i: nat | i < |l| :: LinkedAt(l, ptr, size, i)
  }

  /** What morecore comes to: Wrong if sbrk's argument has wrapped around.  Then its next store, to
      the header of the new block, is outside the program's memory, or all of that is gone. */
  datatype Core = NoMemory | Grown | Wrong

  class Allocator {
    // s.ptr and s.size of the header at each address
    var ptr: map<nat, nat>
    var size: map<nat, nat>
    var freep: nat
    ghost var heap: Heap

    ghost predicate Valid()
      reads this
    {
      && HeapInv(heap) && Linked(heap.l, ptr, size)
      && (if heap.l == [] then freep == NULL else freep == heap.l[heap.c].addr)
      && forall a | a in heap.live :: a in size && size[a] == heap.live[a]
    }

    constructor ()
      ensures Valid() && heap == New()
    {
      ptr, size, freep, heap := map[], map[], NULL, New();
      new;
      NewOk();
    }

    /** free's search: the last block before bp, from any freep. */
    method Find(bp: nat, ghost l: seq<Block>, ghost c: nat, ghost b: Block) returns (p: nat)
      requires Ordered(l) && Linked(l, ptr, size) && c < |l| && freep == l[c].addr && Clear(l, b) && b.addr == bp > BASE
      ensures p == l[Pos(l, bp)].addr
    {
      hide Pos;
      hide Ordered;
      hide Linked;
      hide Clear;
      ghost var k := Pos(l, bp);
      p := freep;
      ghost var j: nat := c;
      InMaps(l, ptr, size, j);
      while !(bp > p && bp < ptr[p])
        invariant j < |l| && p == l[j].addr && p in ptr && ptr[p] == l[Next(|l|, j)].addr
        decreases Around(|l|, j, k)
      {
        StepToward(l, j, b);
        Stops(l, j, b);
        if p >= ptr[p] && (bp > p || bp < ptr[p]) { return; }
        p := ptr[p];
        j := Next(|l|, j);
        InMaps(l, ptr, size, j);
      }
      Stops(l, j, b);
    }

    /** The body of free: puts the block at bp, whose header holds its size, into the list. */
    method Link(bp: nat, ghost l: seq<Block>, ghost c: nat)
      requires Ordered(l) && Linked(l, ptr, size) && c < |l| && freep == l[c].addr
      requires bp in size && bp > BASE && Clear(l, Block(bp, size[bp]))
      modifies this`ptr, this`size, this`freep
      ensures Linked(Insert(l, Pos(l, bp), Block(bp, old(size[bp]))), ptr, size) && freep == l[Pos(l, bp)].addr
      ensures forall a | a in old(size) && a != bp && (forall i | 0 <= i < |l| :: l[i].addr != a) :: a in size && size[a] == old(size[a])
    {
      hide Pos;
      hide Insert;
      hide Linked;
      hide HalfLinked;
      hide Ordered;
      hide Clear;
      ghost var b, k := Block(bp, size[bp]), Pos(l, bp);
      var p := Find(bp, l, c, b);
      LinkRight(l, b, ptr, size);
      InMaps(l, ptr, size, k);
      var next := ptr[p];
      if bp + size[bp] == next {
        size := size[bp := size[bp] + size[next]];
        ptr := ptr[bp := ptr[next]];
      } else {
        ptr := ptr[bp := next];
      }
      LinkLeft(l, b, k, ptr, size);
      if p + size[p] == bp {
        size := size[p := size[p] + size[bp]];
        ptr := ptr[p := ptr[bp]];
      } else {
        ptr := ptr[p := bp];
      }
      freep := p;
    }

    /** free of a live block. */
    method Free(ap: nat)
      requires Valid() && ap >= 1 && ap - 1 in heap.live
      modifies this
      ensures Ordered(old(heap).l) && ap - 1 > BASE && Valid() && heap == FreeOp(old(heap), ap - 1)
    {
      hide Pos;
      hide Insert;
      hide Linked;
      hide Ordered;
      hide InList;
      hide InLive;
      LiveNotEmpty(heap, ap - 1);
      FreeKeeps(heap, ap - 1);
      LiveOffList(heap);
      InsertHead(heap.l, Block(ap - 1, heap.live[ap - 1]));
      Link(ap - 1, heap.l, heap.c);
      heap := FreeOp(heap, ap - 1);
    }

    /** morecore; at is sbrk's answer. */
    method Morecore(nu: nat, at: Option<nat>) returns (core: Core)
      requires Valid() && heap.l != [] && nu >= 1 && (at.Some? ==> Beyond(heap, at.value))
      modifies this
      ensures Valid() && core == CoreOf(nu, at)
      ensures heap == if core.Grown? then More(old(heap), Chunk(nu), at.value) else old(heap)
    {
      hide Pos;
      hide Insert;
      hide Linked;
      hide Ordered;
      hide InList;
      hide InLive;
      var n := if nu < CHUNK then CHUNK else nu;
      var arg := n * UNIT % UINT;
      if arg >= UINT / 2 { arg := arg - UINT; }
      if arg != n * UNIT { return Wrong; }
      if at.None? { return NoMemory; }
      ghost var b := Block(at.value, n);
      MoreKeeps(heap, n, at.value);
      FreshClear(heap, b);
      NotOnList(heap.l, b);
      LiveOffList(heap);
      FreshNotLive(heap, at.value);
      LinkedFrame(heap.l, ptr, size, ptr, size[at.value := n], at.value);
      InsertHead(heap.l, b);
      size := size[at.value := n];
      Link(at.value, heap.l, heap.c);
      heap := More(heap, n, at.value);
      return Grown;
    }

    /** malloc's work on the block p it has chosen, the j-th of the list. */
    method TakeBlock(prevp: nat, p: nat, n: nat, ghost j: nat) returns (r: nat)
      requires Valid() && 1 <= j < |heap.l| && p == heap.l[j].addr && prevp == heap.l[j - 1].addr && heap.l[j].size >= n >= 1
      modifies this
      ensures Valid() && heap == Take(old(heap), j, n) && r == CutBlock(old(heap).l, j, n).addr
    {
      hide Linked;
      hide InList;
      hide InLive;
      hide Cut;
      TakeKeeps(heap, j, n);
      InMaps(heap.l, ptr, size, j);
      if heap.l[j].size == n { LinkCutAll(heap.l, ptr, size, j, n); } else { LinkCutTail(heap.l, ptr, size, j, n); }
      LiveOffList(heap);
      CutOffLive(heap, j, n);
      r := p;
      if size[p] == n {
        ptr := ptr[prevp := ptr[p]];
      } else {
        size := size[p := size[p] - n];
        r := p + size[p];
        size := size[r := n];
      }
      freep := prevp;
      CutPrev(heap.l, j, n);
      heap := Take(heap, j, n);
    }

    // malloc's first lines: an empty list on the first call.
    method Prepare() returns (prevp: nat)
      requires Valid()
      modifies this
      ensures Valid() && heap == Start(old(heap)) && heap.l != [] && Ordered(heap.l) && prevp == freep
    {
      hide InList;
      hide InLive;
      StartOk(heap);
      prevp := freep;
      if heap.l != [] { BaseIsLow(heap); }
      if prevp == NULL {
        prevp := BASE;
        freep := BASE;
        ptr := ptr[BASE := BASE];
        size := size[BASE := 0];
        StartLinked(heap, ptr, size);
        heap := Start(heap);
      }
    }

    // morecore seen from malloc's loop: afterwards some block fits.
    method Refill(n: nat, at: Option<nat>) returns (core: Core)
      requires Valid() && heap.l != [] && n >= 1 && (at.Some? ==> Beyond(heap, at.value))
      modifies this
      ensures Valid() && core == CoreOf(n, at) && (!core.Grown? ==> heap == old(heap))
      ensures core.Grown? ==>
        && heap == More(old(heap), Chunk(n), at.value) && heap.l != [] && Ordered(heap.l) && heap.c < |heap.l|
        && FirstFit(heap.l, Next(|heap.l|, heap.c), heap.c, n).Some?
        && freep == heap.l[heap.c].addr && freep in ptr && ptr[freep] == heap.l[Next(|heap.l|, heap.c)].addr
    {
      hide FirstFit;
      hide Linked;
      hide InList;
      hide InLive;
      if at.Some? {
        MoreFits(heap, Chunk(n), at.value, n);
        MoreShape(heap, Chunk(n), at.value);
      }
      core := Morecore(n, at);
      if core.Grown? { InMaps(heap.l, ptr, size, heap.c); }
    }

    /** malloc's loop from the block after freep until one fits or it is back at freep. */
    method Search(n: nat) returns (found: bool, prevp: nat, p: nat)
      requires Valid() && heap.l != []
      ensures Ordered(heap.l) && heap.c < |heap.l|
      ensures match FirstFit(heap.l, Next(|heap.l|, heap.c), heap.c, n)
        case None => !found
        case Some(k) => found && p == heap.l[k].addr && prevp == heap.l[Prev(|heap.l|, k)].addr
    {
      hide FirstFit;
      hide Linked;
      hide LiveOk;
      hide Tiled;
      hide Ordered;
      hide Around;
      BaseIsLow(heap);
      InMaps(heap.l, ptr, size, heap.c);
      prevp := freep;
      p := ptr[prevp];
      ghost var j: nat := Next(|heap.l|, heap.c);
      while true
        invariant j < |heap.l| && p == heap.l[j].addr && prevp == heap.l[Prev(|heap.l|, j)].addr
        invariant FirstFit(heap.l, Next(|heap.l|, heap.c), heap.c, n) == FirstFit(heap.l, j, heap.c, n)
        decreases Around(|heap.l|, j, heap.c)
      {
        FirstFitStep(heap.l, j, heap.c, n);
        InMaps(heap.l, ptr, size, j);
        DistinctAddrs(heap.l, j, heap.c);
        if size[p] >= n { found := true; return; }
        if p == freep { found := false; return; }
        prevp := p;
        p := ptr[p];
        j := Next(|heap.l|, j);
      }
    }

    /** malloc; NULL when there is no memory, None when it goes astray.  After morecore the loop goes
        on from the new freep. */
    method Malloc(nbytes: nat, at: Option<nat>) returns (r: Option<nat>)
      requires Valid() && nbytes < UINT && (at.Some? ==> Beyond(heap, at.value))
      modifies this
      ensures Valid()
      ensures match Umalloc.Malloc(old(heap), nbytes, at)
        case Got(h, a) => heap == h && r == Some(a + 1)
        case Failed(h) => heap == h && r == Some(NULL)
        case Astray(_) => heap == Start(old(heap)) && r == None
    {
      hide HeapInv;
      hide Linked;
      hide FirstFit;
      hide More;
      hide Take;
      hide Ordered;
      hide Chunk;
      hide Umalloc.Malloc;
      hide CutBlock;
      hide Start;
      hide Units;
      hide Beyond;
      var nunits := (nbytes + UNIT - 1) % UINT / UNIT + 1;
      MallocIs(heap, nbytes, at);
      var prevp := Prepare();
      var found, p;
      found, prevp, p := Search(nunits);
      if !found {
        var core := Refill(nunits, at);
        if core.Wrong? { return None; }
        if core.NoMemory? { return Some(NULL); }
        found, prevp, p := Search(nunits);
      }
      ghost var j := FirstFit(heap.l, Next(|heap.l|, heap.c), heap.c, nunits).value;
      BaseTooSmall(heap.l, j, nunits);
      var b := TakeBlock(prevp, p, nunits, j);
      r := Some(b + 1);
    }
  }

  function CoreOf(nu: nat, at: Option<nat>): Core {
    if SbrkArg(Chunk(nu)) != UNIT * Chunk(nu) then Wrong else if at.None? then NoMemory else Grown
  }

  // malloc by cases of its two searches.
  lemma MallocIs(h: Heap, nbytes: nat, at: Option<nat>)
    requires HeapInv(h) && nbytes < UINT && (at.Some? ==> Beyond(h, at.value))
    ensures (nbytes + UNIT - 1) % UINT / UNIT + 1 == Units(nbytes) >= 1
    ensures var h0, n := Start(h), Units(nbytes);
      && HeapInv(h0) && Ordered(h0.l) && h0.c < |h0.l| && (at.Some? ==> Beyond(h0, at.value))
      && match FirstFit(h0.l, Next(|h0.l|, h0.c), h0.c, n)
         case Some(k) => Umalloc.Malloc(h, nbytes, at) == Got(Take(h0, k, n), CutBlock(h0.l, k, n).addr)
         case None =>
           if CoreOf(n, at).Wrong? then Umalloc.Malloc(h, nbytes, at).Astray?
           else if at.None? then Umalloc.Malloc(h, nbytes, at) == Failed(h0)
           else
             var h1 := More(h0, Chunk(n), at.value);
             && |h1.l| > h1.c
             && (match FirstFit(h1.l, Next(|h1.l|, h1.c), h1.c, n)
                 case Some(k) => k >= 1 && Umalloc.Malloc(h, nbytes, at) == Got(Take(h1, k, n), CutBlock(h1.l, k, n).addr)
                 case None => false)
  {
    hide FirstFit;
    hide More;
    hide Take;
    StartOk(h);
    var h0, n := Start(h), Units(nbytes);
    if at.Some? {
      MoreFits(h0, Chunk(n), at.value, n);
      MoreShape(h0, Chunk(n), at.value);
    }
  }

  lemma FirstFitStep(l: seq<Block>, k: nat, c: nat, n: nat)
    requires k < |l| && c < |l|
    ensures FirstFit(l, k, c, n) ==
      (if l[k].size >= n then Some(k) else if k == c then None else FirstFit(l, Next(|l|, k), c, n))
    ensures k != c ==> Around(|l|, Next(|l|, k), c) < Around(|l|, k, c)
  {
  }

  lemma BaseTooSmall(l: seq<Block>, k: nat, n: nat)
    requires Ordered(l) && k < |l| && l[k].size >= n >= 1
    ensures k >= 1
  {
  }

  lemma BaseIsLow(h: Heap)
    requires HeapInv(h) && h.l != []
    ensures Ordered(h.l) && h.c < |h.l| && h.l[h.c].addr != NULL
  {
  }

  lemma StartLinked(h: Heap, ptr: map<nat, nat>, size: map<nat, nat>)
    requires HeapInv(h) && h.l == [] && BASE in ptr && ptr[BASE] == BASE && BASE in size && size[BASE] == 0
    ensures Linked(Start(h).l, ptr, size)
  {
  }

  // Live blocks' headers are not on the list.
  lemma LiveOffList(h: Heap)
    requires HeapInv(h) && h.l != []
    ensures forall a, i | a in h.live && 0 <= i < |h.l| :: h.l[i].addr != a
  {
    forall a | a in h.live ensures forall i | 0 <= i < |h.l| :: h.l[i].addr != a { NotOnList(h.l, Block(a, h.live[a])); }
  }

  lemma FreshNotLive(h: Heap, at: nat)
    requires HeapInv(h) && Beyond(h, at)
    ensures at !in h.live
  {
    if at in h.live { LiveInUnits(h, at); }
  }

  lemma LiveInUnits(h: Heap, a: nat)
    requires HeapInv(h) && a in h.live
    ensures a in h.units
  {
    assert Clear(h.l, Block(a, h.live[a])) && In(Block(a, h.live[a]), a);
  }

  lemma InsertHead(l: seq<Block>, b: Block)
    requires Ordered(l) && Clear(l, b)
    ensures var k := Pos(l, b.addr); k < |Insert(l, k, b)| && Insert(l, k, b)[k].addr == l[k].addr && Insert(l, k, b) != []
  {
    hide Pos;
  }

  // malloc's cut on the headers: the block goes whole ..
  lemma LinkCutAll(l: seq<Block>, ptr: map<nat, nat>, size: map<nat, nat>, k: nat, n: nat)
    requires Ordered(l) && Linked(l, ptr, size) && 1 <= k < |l| && l[k].size == n && l[k].addr in ptr
    ensures Linked(Cut(l, k, n), ptr[l[k - 1].addr := ptr[l[k].addr]], size)
  {
    hide Ordered;
    var l1, ptr1 := Cut(l, k, n), ptr[l[k - 1].addr := ptr[l[k].addr]];
    LinkedHere(l, ptr, size, k);
    forall i: nat | i < |l1| ensures LinkedAt(l1, ptr1, size, i) {
      var j := if i < k then i else i + 1;
      LinkedHere(l, ptr, size, j);
      DistinctAddrs(l, j, k - 1);
    }
  }

  // .. or loses its tail.
  lemma LinkCutTail(l: seq<Block>, ptr: map<nat, nat>, size: map<nat, nat>, k: nat, n: nat)
    requires Ordered(l) && Linked(l, ptr, size) && 1 <= k < |l| && l[k].size > n >= 1
    ensures Linked(Cut(l, k, n), ptr, size[l[k].addr := l[k].size - n][CutBlock(l, k, n).addr := n])
  {
    var l1, b := Cut(l, k, n), CutBlock(l, k, n);
    var size1 := size[l[k].addr := l[k].size - n][b.addr := n];
    CutOk(l, k, n);
    NotOnList(l1, b);
    forall i: nat | i < |l1| ensures LinkedAt(l1, ptr, size1, i) {
      LinkedHere(l, ptr, size, i);
      DistinctAddrs(l, i, k);
    }
  }

  lemma CutOffLive(h: Heap, k: nat, n: nat)
    requires HeapInv(h) && 1 <= k < |h.l| && h.l[k].size >= n >= 1
    ensures CutBlock(h.l, k, n).addr !in h.live && h.l[k].addr !in h.live
  {
    hide InList;
    TakeKeeps(h, k, n);
    LiveOffList(h);
  }

  lemma CutPrev(l: seq<Block>, k: nat, n: nat)
    requires 1 <= k < |l| && l[k].size >= n
    ensures k - 1 < |Cut(l, k, n)| && Cut(l, k, n)[k - 1] == l[k - 1]
  {
  }

  // p is the last block before b exactly when the loop stops there.
  lemma Stops(l: seq<Block>, j: nat, b: Block)
    requires Ordered(l) && Clear(l, b) && j < |l|
    ensures var p, q := l[j].addr, l[Next(|l|, j)].addr;
      (b.addr > p && b.addr < q) || (p >= q && (b.addr > p || b.addr < q)) <==> j == Pos(l, b.addr)
  {
    hide Pos;
    var k := Pos(l, b.addr);
    assert Disjoint(l[j], b) && Disjoint(l[Next(|l|, j)], b);
    if j < k { assert l[j].addr + l[j].size < l[k].addr; }
  }

  lemma StepToward(l: seq<Block>, j: nat, b: Block)
    requires Ordered(l) && Clear(l, b) && j < |l|
    ensures j != Pos(l, b.addr) ==> Around(|l|, Next(|l|, j), Pos(l, b.addr)) < Around(|l|, j, Pos(l, b.addr))
  {
    hide Pos;
  }

  // The headers after the first half of free: b points on, joined to the right.
  ghost predicate HalfLinked(l: seq<Block>, k: nat, b: Block, ptr: map<nat, nat>, size: map<nat, nat>)
    requires k < |l|
  {
    var right := TouchesRight(l, k, b);
    var next := if right then Next(|l|, k + 1) else Next(|l|, k);
    && b.addr in ptr && ptr[b.addr] == l[next].addr
    && b.addr in size && size[b.addr] == (if right then b.size + l[k + 1].size else b.size)
    && Linked(l, ptr, size)
  }

  lemma LinkRight(l: seq<Block>, b: Block, ptr: map<nat, nat>, size: map<nat, nat>)
    requires Ordered(l) && Clear(l, b) && Linked(l, ptr, size) && b.addr in size && size[b.addr] == b.size
    ensures var k := Pos(l, b.addr); var next := l[Next(|l|, k)].addr;
      && (b.addr + b.size == next <==> TouchesRight(l, k, b))
      && next in size && next in ptr
      && (if b.addr + b.size == next then HalfLinked(l, k, b, ptr[b.addr := ptr[next]], size[b.addr := size[b.addr] + size[next]])
          else HalfLinked(l, k, b, ptr[b.addr := next], size))
  {
    hide Pos;
    hide Linked;
    hide Ordered;
    var k := Pos(l, b.addr);
    NotOnList(l, b);
    InMaps(l, ptr, size, k);
    InMaps(l, ptr, size, Next(|l|, k));
    var next := l[Next(|l|, k)].addr;
    LinkedFrame(l, ptr, size, ptr[b.addr := ptr[next]], size[b.addr := size[b.addr] + size[next]], b.addr);
    LinkedFrame(l, ptr, size, ptr[b.addr := next], size, b.addr);
    BaseFirst(l);
  }

  lemma BaseFirst(l: seq<Block>)
    requires Ordered(l)
    ensures l[0] == Block(BASE, 0)
  {
  }

  // Headers off the list do not matter.
  lemma LinkedFrame(l: seq<Block>, ptr: map<nat, nat>, size: map<nat, nat>, ptr1: map<nat, nat>, size1: map<nat, nat>, a: nat)
    requires Linked(l, ptr, size) && forall i | 0 <= i < |l| :: l[i].addr != a
    requires forall d | d in ptr && d != a :: d in ptr1 && ptr1[d] == ptr[d]
    requires forall d | d in size && d != a :: d in size1 && size1[d] == size[d]
    ensures Linked(l, ptr1, size1)
  {
    forall i: nat | i < |l| ensures LinkedAt(l, ptr1, size1, i) { assert LinkedAt(l, ptr, size, i); }
  }

  lemma NotOnList(l: seq<Block>, b: Block)
    requires Ordered(l) && Clear(l, b)
    ensures forall i | 0 <= i < |l| :: l[i].addr != b.addr
  {
    forall i | 0 <= i < |l| ensures l[i].addr != b.addr { assert Disjoint(l[i], b); }
  }

  // The list after free, block by block: at is the place of the new block, cut the first old
  // block after it.
  lemma InsertAt(l: seq<Block>, k: nat, b: Block, at: nat, cut: nat)
    requires k < |l|
    requires at == (if TouchesLeft(l, k, b) then k else k + 1) && cut == (if TouchesRight(l, k, b) then k + 2 else k + 1)
    ensures var l1 := Insert(l, k, b);
      && at <= cut <= |l| && |l1| == at + 1 + (|l| - cut)
      && (forall i | 0 <= i < at :: l1[i] == l[i]) && l1[at] == Joined(l, k, b)
      && (forall i | at < i < |l1| :: l1[i] == l[i - at - 1 + cut])
  {
  }

  lemma DistinctAddrs(l: seq<Block>, i: nat, j: nat)
    requires Ordered(l) && i < |l| && j < |l|
    ensures l[i].addr == l[j].addr <==> i == j
  {
  }

  // l1 is l with one block at place at, instead of those from lo to cut; joined tells whether that
  // block starts where the one before it did.
  ghost predicate Spliced(l: seq<Block>, k: nat, b: Block, at: nat, cut: nat, l1: seq<Block>) {
    && k < |l| && at == (if TouchesLeft(l, k, b) then k else k + 1) && cut == (if TouchesRight(l, k, b) then k + 2 else k + 1)
    && at <= cut <= |l| && |l1| == at + 1 + (|l| - cut) && l1[at] == Joined(l, k, b)
    && (forall i | 0 <= i < at :: l1[i] == l[i])
    && (forall i | at < i < |l1| :: l1[i] == l[i - at - 1 + cut])
  }

  // The old place of the block now at place i.
  function OldPlace(at: nat, cut: nat, i: nat): int { if i < at then i else i - at - 1 + cut }

  lemma NextAddr(l: seq<Block>, k: nat, b: Block, at: nat, cut: nat, l1: seq<Block>, i: nat)
    requires Spliced(l, k, b, at, cut, l1) && i < |l1| && l[0] == l1[0]
    ensures i != at ==> 0 <= OldPlace(at, cut, i) < |l| && l1[i] == l[OldPlace(at, cut, i)]
    ensures i != at && !(i == k && at == k + 1) ==> l1[Next(|l1|, i)].addr == l[Next(|l|, OldPlace(at, cut, i))].addr
    ensures i == k && at == k + 1 ==> l1[Next(|l1|, i)].addr == b.addr
    ensures i == at ==> l1[Next(|l1|, i)].addr == l[if TouchesRight(l, k, b) then Next(|l|, k + 1) else Next(|l|, k)].addr
  {
  }

  // One block of the new list, with the headers as the second half of free leaves them.
  ghost predicate NewAt(l: seq<Block>, k: nat, b: Block, ptr: map<nat, nat>, size: map<nat, nat>, l1: seq<Block>, i: nat)
    requires k < |l| && l[k].addr in size && b.addr in ptr && b.addr in size && i < |l1|
  {
    var p := l[k].addr;
    if p + size[p] == b.addr then LinkedAt(l1, ptr[p := ptr[b.addr]], size[p := size[p] + size[b.addr]], i)
    else LinkedAt(l1, ptr[p := b.addr], size, i)
  }

  lemma LinkLeftAt(l: seq<Block>, k: nat, b: Block, ptr: map<nat, nat>, size: map<nat, nat>, at: nat, cut: nat, l1: seq<Block>, i: nat)
    requires Ordered(l) && k < |l| && HalfLinked(l, k, b, ptr, size) && forall j | 0 <= j < |l| :: l[j].addr != b.addr
    requires Spliced(l, k, b, at, cut, l1) && i < |l1| && l[0] == l1[0] && l[k].addr in size
    ensures NewAt(l, k, b, ptr, size, l1, i)
  {
    hide Ordered;
    hide Next;
    LinkedHere(l, ptr, size, k);
    NextAddr(l, k, b, at, cut, l1, i);
    if i != at {
      LinkedHere(l, ptr, size, OldPlace(at, cut, i));
      DistinctAddrs(l, OldPlace(at, cut, i), k);
    }
  }

  lemma LinkedHere(l: seq<Block>, ptr: map<nat, nat>, size: map<nat, nat>, i: nat)
    requires Linked(l, ptr, size) && i < |l|
    ensures LinkedAt(l, ptr, size, i)
  {
  }

  lemma SplicedFirst(l: seq<Block>, b: Block, k: nat, at: nat, cut: nat, l1: seq<Block>)
    requires Ordered(l) && Clear(l, b) && Spliced(l, k, b, at, cut, l1)
    ensures l1[0] == l[0]
  {
  }

  lemma LinkLeft(l: seq<Block>, b: Block, k: nat, ptr: map<nat, nat>, size: map<nat, nat>)
    requires Ordered(l) && Clear(l, b) && k < |l| && HalfLinked(l, k, b, ptr, size)
    ensures var p := l[k].addr;
      && p in size && p in ptr && b.addr in ptr && b.addr in size
      && (if p + size[p] == b.addr then Linked(Insert(l, k, b), ptr[p := ptr[b.addr]], size[p := size[p] + size[b.addr]])
          else Linked(Insert(l, k, b), ptr[p := b.addr], size))
  {
    hide Ordered;
    hide Insert;
    hide Clear;
    hide Linked;
    hide LinkedAt;
    NotOnList(l, b);
    var at, cut := if TouchesLeft(l, k, b) then k else k + 1, if TouchesRight(l, k, b) then k + 2 else k + 1;
    InsertAt(l, k, b, at, cut);
    var l1, p := Insert(l, k, b), l[k].addr;
    SplicedFirst(l, b, k, at, cut, l1);
    InMaps(l, ptr, size, k);
    forall i: nat | i < |l1| ensures NewAt(l, k, b, ptr, size, l1, i) { LinkLeftAt(l, k, b, ptr, size, at, cut, l1, i); }
    var ptr2 := if p + size[p] == b.addr then ptr[p := ptr[b.addr]] else ptr[p := b.addr];
    var size2 := if p + size[p] == b.addr then size[p := size[p] + size[b.addr]] else size;
    forall i: nat | i < |l1| ensures LinkedAt(l1, ptr2, size2, i) { assert NewAt(l, k, b, ptr, size, l1, i); }
    LinkedAll(l1, ptr2, size2);
  }

  lemma LinkedAll(l: seq<Block>, ptr: map<nat, nat>, size: map<nat, nat>)
    requires forall i: nat | i < |l| :: LinkedAt(l, ptr, size, i)
    ensures Linked(l, ptr, size)
  {
  }

  lemma InMaps(l: seq<Block>, ptr: map<nat, nat>, size: map<nat, nat>, i: nat)
    requires Linked(l, ptr, size) && i < |l|
    ensures l[i].addr in ptr && l[i].addr in size && ptr[l[i].addr] == l[Next(|l|, i)].addr && size[l[i].addr] == l[i].size
  {
    assert LinkedAt(l, ptr, size, i);
  }
}
