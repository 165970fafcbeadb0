/** bio.c of P5_XV6_CoW_Fork/kernel as it changes the buffers and the doubly linked list in place,
    proved against the operations of Bio. */
module BioKernel {
  import opened Wrappers
  import opened Bio

  // The list's head, bcache.head, besides the buffers 0 .. NBUF - 1.
  const HEAD: nat := NBUF

  function After(l: seq<nat>, i: int): nat
    requires -1 <= i < |l|
  {
    if i + 1 < |l| then l[i + 1] else HEAD
  }

  function Before(l: seq<nat>, i: nat): nat
    requires i <= |l|
  {
    if i > 0 then l[i - 1] else HEAD
  }

  /** The pointers hold the list l as a circle through the head. */
  ghost predicate Linked(l: seq<nat>, next: seq<nat>, prev: seq<nat>) {
    && |next| == NBUF + 1 == |prev|
    && (forall i | 0 <= i < |l| :: l[i] < NBUF && next[l[i]] == After(l, i) && prev[l[i]] == Before(l, i))
    && next[HEAD] == After(l, -1) && prev[HEAD] == Before(l, |l|)
  }

  /** What bget comes to: a buffer, a sleep after which the caller starts again, or the panic. */
  datatype Grab = Held(b: nat) | Slept | Panicked

  class BufferCache {
    const bufs: array<Buf>
    const next: array<nat>
    const prev: array<nat>
    var disk: map<(nat, nat), Data>
    ghost var lru: seq<nat>
    ghost var stamp: seq<int>
    ghost var clock: int

    ghost predicate Valid()
      reads this, bufs, next, prev
    {
      && bufs.Length == NBUF && next.Length == NBUF + 1 == prev.Length && next != prev
      && Linked(lru, next[..], prev[..]) && Shape(View())
    }

    ghost function View(): Cache
      reads this, bufs
    {
      Cache(bufs[..], lru, disk, stamp, clock)
    }

    ghost predicate Arrays()
      reads this
    {
      bufs.Length == NBUF && next.Length == NBUF + 1 == prev.Length && next != prev
    }

    /** The cache before binit. */
    constructor (disk: map<(nat, nat), Data>)
      ensures Arrays() && this.disk == disk && fresh(bufs) && fresh(next) && fresh(prev)
      ensures forall i | 0 <= i < NBUF :: bufs[i] == Buf(0, 0, false, false, [])
    {
      this.disk := disk;
      bufs := new Buf[NBUF](i => Buf(0, 0, false, false, []));
      next := new nat[NBUF + 1](i => 0);
      prev := new nat[NBUF + 1](i => 0);
      lru, stamp, clock := [], [], 0;
    }

    /** binit. */
    method Binit()
      requires Arrays() && forall i | 0 <= i < NBUF :: bufs[i] == Buf(0, 0, false, false, [])
      modifies this`lru, this`stamp, this`clock, bufs, next, prev
      ensures Valid() && View() == Initial(disk)
    {
      hide Linked;
      hide Shape;
      prev[HEAD] := HEAD;
      next[HEAD] := HEAD;
      LinkedEmpty(next[..], prev[..]);
      lru := [];
      for b := 0 to NBUF
        invariant Linked(lru, next[..], prev[..]) && |lru| == b && forall i | 0 <= i < b :: lru[i] == b - 1 - i
        invariant forall i | 0 <= i < b :: bufs[i] == Buf(NODEV, 0, false, false, [])
        invariant forall i | b <= i < NBUF :: bufs[i] == Buf(0, 0, false, false, [])
      {
        InsertFront(lru, next[..], prev[..], b);
        next[b] := next[HEAD];
        prev[b] := HEAD;
        bufs[b] := bufs[b].(dev := NODEV);
        prev[next[HEAD]] := b;
        next[HEAD] := b;
        lru := [b] + lru;
      }
      stamp, clock := Initial(disk).stamp, 0;
      assert bufs[..] == Initial(disk).bufs && lru == Initial(disk).lru;
      InitialInv(disk);
    }

    // bget's first loop.
    method FindCached(dev: nat, sector: nat) returns (r: Option<nat>)
      requires Valid()
      ensures r == Cached(View(), dev, sector, 0)
    {
      hide Linked;
      hide Shape;
      hide Cached;
      ghost var c := View();
      InvWf(c);
      LinkedAt(lru, next[..], prev[..], 0);
      var b := next[HEAD];
      ghost var i := 0;
      while b != HEAD
        invariant 0 <= i <= NBUF && b == After(lru, i - 1) && Cached(c, dev, sector, 0) == Cached(c, dev, sector, i)
        decreases NBUF - i
      {
        LinkedAt(lru, next[..], prev[..], i);
        CachedStep(c, dev, sector, i);
        if bufs[b].dev == dev && bufs[b].sector == sector { return Some(b); }
        b := next[b];
        i := i + 1;
      }
      CachedEnd(c, dev, sector, i);
      return None;
    }

    // bget's second loop.
    method FindOldest() returns (r: Option<nat>)
      requires Valid()
      ensures r == match Oldest(View(), NBUF) case None => None case Some(i) => Some(lru[i])
    {
      hide Linked;
      hide Shape;
      hide Oldest;
      ghost var c := View();
      InvWf(c);
      LinkedAt(lru, next[..], prev[..], 0);
      var b := prev[HEAD];
      ghost var i := NBUF;
      while b != HEAD
        invariant 0 <= i <= NBUF && b == Before(lru, i) && Oldest(c, NBUF) == Oldest(c, i)
        decreases i
      {
        LinkedAt(lru, next[..], prev[..], i - 1);
        OldestStep(c, i);
        if !bufs[b].busy { return Some(b); }
        b := prev[b];
        i := i - 1;
      }
      OldestEnd(c, i);
      return None;
    }

    method Bget(dev: nat, sector: nat) returns (r: Grab)
      requires Valid() && dev != NODEV
      modifies bufs
      ensures Valid() && (Current(old(View())) ==> Current(View()))
      ensures match Bio.Bget(old(View()), dev, sector)
        case Has(c, b) => View() == c && r == Held(b)
        case Wait => View() == old(View()) && r == Slept
        case NoBuffers => View() == old(View()) && r == Panicked
    {
      hide Shape;
      hide Current;
      hide Linked;
      hide Cached;
      hide Oldest;
      ghost var c := View();
      InvWf(c);
      if Bio.Bget(c, dev, sector).Has? { BgetInv(c, dev, sector); }
      var found := FindCached(dev, sector);
      if found.Some? {
        if bufs[found.value].busy { return Slept; }
        bufs[found.value] := bufs[found.value].(busy := true);
        return Held(found.value);
      }
      var oldest := FindOldest();
      if oldest.None? { return Panicked; }
      var b := oldest.value;
      bufs[b] := Buf(dev, sector, true, false, bufs[b].data);
      return Held(b);
    }

    /** bread with iderw: a busy valid buffer of the sector, and, as long as holders write back, what
        the disk has. */
    method Bread(dev: nat, sector: nat) returns (r: Grab)
      requires Valid() && dev != NODEV
      modifies bufs
      ensures Valid() && disk == old(disk) && (Current(old(View())) ==> Current(View()))
      ensures match Bio.Bget(old(View()), dev, sector)
        case Has(c, b) => r == Held(b) && View() == (if c.bufs[b].valid then c else Fill(c, b))
        case Wait => r == Slept && View() == old(View())
        case NoBuffers => r == Panicked && View() == old(View())
      ensures r.Held? ==> r.b < NBUF && bufs[r.b].busy && bufs[r.b].valid && Holds(bufs[r.b], dev, sector)
      ensures r.Held? && Current(old(View())) ==> bufs[r.b].data == OnDisk(View(), dev, sector)
    {
      hide Linked;
      hide Shape;
      hide Cached;
      hide Oldest;
      hide Current;
      BgetCurrent(View(), dev, sector);
      InvWf(View());
      r := Bget(dev, sector);
      if r.Held? {
        var b := r.b;
        if !bufs[b].valid {
          ghost var c := View();
          InvWf(c);
          var data := if (bufs[b].dev, bufs[b].sector) in disk then disk[(bufs[b].dev, bufs[b].sector)] else [];
          bufs[b] := bufs[b].(valid := true, data := data);
          assert View() == Fill(c, b);
          assert Step(c, ReadIn(b)) == Some(View());
          StepInv(c, ReadIn(b));
        }
      }
    }

    /** bwrite, with iderw; false is the panic on a buffer nobody holds. */
    method Bwrite(b: nat) returns (ok: bool)
      requires Valid() && b < NBUF
      modifies bufs, this`disk
      ensures Valid() && (ok ==> Some(View()) == Bio.Bwrite(old(View()), b)) && (!ok ==> Bio.Bwrite(old(View()), b) == None && View() == old(View()))
      ensures ok == old(bufs[b].busy)
      ensures ok ==> disk == old(disk)[old((bufs[b].dev, bufs[b].sector)) := old(bufs[b].data)]
      ensures Current(old(View())) ==> Current(View())
    {
      hide Permutation;
      hide Linked;
      if !bufs[b].busy { return false; }
      WriteBackInv(View(), b);
      disk := disk[(bufs[b].dev, bufs[b].sector) := bufs[b].data];
      bufs[b] := bufs[b].(valid := true);
      return true;
    }

    /** brelse, whatever the holder has left in the buffer; false is the panic on a buffer nobody
        holds. */
    method Brelse(b: nat) returns (ok: bool)
      requires Valid() && b < NBUF
      modifies this`lru, this`stamp, this`clock, bufs, next, prev
      ensures Valid() && b in old(lru) && (ok ==> Some(View()) == Bio.Brelse(old(View()), b))
      ensures !ok ==> Bio.Brelse(old(View()), b) == None && View() == old(View())
      ensures Current(old(View())) && WrittenBack(old(View()), b) ==> Current(View())
    {
      hide Linked;
      hide Shape;
      hide Current;
      ghost var c := View();
      InvWf(c);
      if !bufs[b].busy { return false; }
      BrelseInv(c, b);
      MoveFront(lru, next[..], prev[..], b);
      ghost var n0, p0 := next[..], prev[..];
      prev[next[b]] := prev[b];
      next[prev[b]] := next[b];
      next[b] := next[HEAD];
      prev[b] := HEAD;
      prev[next[HEAD]] := b;
      next[HEAD] := b;
      lru := ToFront(lru, b);
      stamp := stamp[b := clock];
      clock := clock + 1;
      bufs[b] := bufs[b].(busy := false);
      assert View() == Bio.Brelse(c, b).value;
      return true;
    }
  }

  lemma InvWf(c: Cache)
    requires Shape(c)
    ensures Wf(c) && Permutation(c.lru)
  {
  }

  lemma BgetCurrent(c: Cache, dev: nat, sector: nat)
    requires Shape(c) && dev != NODEV
    ensures var g := Bio.Bget(c, dev, sector);
      g.Has? ==>
        && Shape(g.c) && g.c.bufs[g.b].busy && Holds(g.c.bufs[g.b], dev, sector) && g.c.disk == c.disk
        && (Current(c) ==> Current(g.c) && (g.c.bufs[g.b].valid ==> g.c.bufs[g.b].data == OnDisk(g.c, dev, sector)))
  {
    hide Permutation;
    hide InOrder;
    if Bio.Bget(c, dev, sector).Has? { BgetInv(c, dev, sector); }
  }

  // The pointers after putting b in front, and after taking b out.
  function FrontNext(next: seq<nat>, b: nat): seq<nat>
    requires |next| == NBUF + 1 && b < NBUF
  {
    next[b := next[HEAD]][HEAD := b]
  }

  function FrontPrev(next: seq<nat>, prev: seq<nat>, b: nat): seq<nat>
    requires |next| == NBUF + 1 == |prev| && b < NBUF && next[HEAD] <= NBUF
  {
    prev[b := HEAD][next[HEAD] := b]
  }

  function OutNext(next: seq<nat>, prev: seq<nat>, b: nat): (r: seq<nat>)
    requires |next| == NBUF + 1 == |prev| && b < NBUF && prev[b] <= NBUF
    ensures |r| == NBUF + 1
  {
    next[prev[b] := next[b]]
  }

  function OutPrev(next: seq<nat>, prev: seq<nat>, b: nat): (r: seq<nat>)
    requires |next| == NBUF + 1 == |prev| && b < NBUF && next[b] <= NBUF
    ensures |r| == NBUF + 1
  {
    prev[next[b] := prev[b]]
  }

  /** binit's insertion. */
  lemma InsertFront(l: seq<nat>, next: seq<nat>, prev: seq<nat>, b: nat)
    requires Linked(l, next, prev) && b < NBUF && b !in l
    ensures |next| == NBUF + 1 == |prev| && next[HEAD] <= NBUF && Linked([b] + l, FrontNext(next, b), FrontPrev(next, prev, b))
  {
    var l1, n1, p1 := [b] + l, FrontNext(next, b), FrontPrev(next, prev, b);
    forall i: nat | i < |l1| ensures NodeOk(l1, n1, p1, i) {
      if i > 0 {
        assert l1[i] == l[i - 1] && next[l[i - 1]] == After(l, i - 1) && prev[l[i - 1]] == Before(l, i - 1);
        if i > 1 { InsertApart(l, next, prev, i - 1); }
      }
    }
    LinkedAll(l1, n1, p1);
  }

  // The first of the list is the only one whose prev is the head.
  lemma InsertApart(l: seq<nat>, next: seq<nat>, prev: seq<nat>, i: nat)
    requires Linked(l, next, prev) && 0 < i < |l|
    ensures l[i] != l[0]
  {
    assert prev[l[i]] == l[i - 1] && l[i - 1] < NBUF && prev[l[0]] == HEAD;
  }

  lemma LinkedEmpty(next: seq<nat>, prev: seq<nat>)
    requires |next| == NBUF + 1 == |prev| && next[HEAD] == HEAD && prev[HEAD] == HEAD
    ensures Linked([], next, prev)
  {
  }

  lemma LinkedAt(l: seq<nat>, next: seq<nat>, prev: seq<nat>, i: int)
    requires Linked(l, next, prev) && |l| == NBUF
    ensures |next| == NBUF + 1 == |prev| && next[HEAD] == After(l, -1) && prev[HEAD] == Before(l, NBUF)
    ensures 0 <= i < NBUF ==> l[i] < NBUF && next[l[i]] == After(l, i) && prev[l[i]] == Before(l, i)
  {
  }

  lemma CachedStep(c: Cache, dev: nat, sector: nat, i: nat)
    requires Wf(c) && i < NBUF
    ensures Cached(c, dev, sector, i) == if Holds(c.bufs[c.lru[i]], dev, sector) then Some(c.lru[i]) else Cached(c, dev, sector, i + 1)
  {
  }

  lemma CachedEnd(c: Cache, dev: nat, sector: nat, i: nat)
    requires Wf(c) && i == NBUF
    ensures Cached(c, dev, sector, i) == None
  {
  }

  lemma OldestStep(c: Cache, i: nat)
    requires Wf(c) && 0 < i <= NBUF
    ensures Oldest(c, i) == if !c.bufs[c.lru[i - 1]].busy then Some(i - 1) else Oldest(c, i - 1)
  {
  }

  lemma OldestEnd(c: Cache, i: nat)
    requires Wf(c) && i == 0
    ensures Oldest(c, i) == None
  {
  }

  function Without(l: seq<nat>, b: nat): seq<nat>
    requires b in l
  {
    l[..Place(l, b)] + l[Place(l, b) + 1..]
  }

  // One buffer after brelse's first two lines; b is at place k of l.
  lemma UnlinkedAt(l: seq<nat>, next: seq<nat>, prev: seq<nat>, k: nat, i: nat, b: nat)
    requires Linked(l, next, prev) && Permutation(l) && k < NBUF && i < NBUF && i != k && b == l[k]
    ensures |next| == NBUF + 1 == |prev| && b < NBUF && next[b] <= NBUF && prev[b] <= NBUF && l[i] < NBUF
    ensures OutNext(next, prev, b)[l[i]] == (if i + 1 == k then After(l, k) else After(l, i))
    ensures OutPrev(next, prev, b)[l[i]] == (if i == k + 1 then Before(l, k) else Before(l, i))
  {
    hide Linked;
    hide Permutation;
    PermLength(l);
    LinkedAt(l, next, prev, k);
    LinkedAt(l, next, prev, i);
    if k > 0 { DistinctAt(l, k - 1, i); }
    if k + 1 < NBUF { DistinctAt(l, k + 1, i); }
  }

  lemma PermLength(l: seq<nat>)
    requires Permutation(l)
    ensures |l| == NBUF && forall i | 0 <= i < NBUF :: l[i] < NBUF
  {
  }

  lemma DistinctAt(l: seq<nat>, i: nat, j: nat)
    requires Permutation(l) && i < NBUF && j < NBUF
    ensures l[i] == l[j] <==> i == j
  {
  }

  lemma UnlinkedHead(l: seq<nat>, next: seq<nat>, prev: seq<nat>, k: nat, b: nat)
    requires Linked(l, next, prev) && Permutation(l) && k < NBUF && b == l[k]
    ensures |next| == NBUF + 1 == |prev| && b < NBUF && next[b] <= NBUF && prev[b] <= NBUF && next[b] != b
    ensures OutNext(next, prev, b)[HEAD] == (if k == 0 then After(l, 0) else l[0])
    ensures OutPrev(next, prev, b)[HEAD] == (if k == NBUF - 1 then Before(l, k) else l[NBUF - 1])
  {
    hide Linked;
    hide Permutation;
    PermLength(l);
    LinkedAt(l, next, prev, k);
    if k + 1 < NBUF { DistinctAt(l, k + 1, k); }
  }

  // One buffer of a linked list.
  ghost predicate NodeOk(l: seq<nat>, next: seq<nat>, prev: seq<nat>, i: nat)
    requires |next| == NBUF + 1 == |prev| && i < |l|
  {
    l[i] < NBUF && next[l[i]] == After(l, i) && prev[l[i]] == Before(l, i)
  }

  lemma LinkedAll(l: seq<nat>, next: seq<nat>, prev: seq<nat>)
    requires |next| == NBUF + 1 == |prev| && (forall i: nat | i < |l| :: NodeOk(l, next, prev, i))
    requires next[HEAD] == After(l, -1) && prev[HEAD] == Before(l, |l|)
    ensures Linked(l, next, prev)
  {
    forall i | 0 <= i < |l| ensures l[i] < NBUF && next[l[i]] == After(l, i) && prev[l[i]] == Before(l, i) { assert NodeOk(l, next, prev, i); }
  }

  lemma UnlinkedNode(l: seq<nat>, next: seq<nat>, prev: seq<nat>, b: nat, i: nat)
    requires Linked(l, next, prev) && Permutation(l) && b < NBUF && b in l && i < NBUF - 1
    ensures |next| == NBUF + 1 == |prev| && next[b] <= NBUF && prev[b] <= NBUF && |Without(l, b)| == NBUF - 1
    ensures NodeOk(Without(l, b), OutNext(next, prev, b), OutPrev(next, prev, b), i)
  {
    hide Place;
    hide Permutation;
    hide Linked;
    hide Without;
    var k := Place(l, b);
    var j: nat := if i < k then i else i + 1;
    OnList(l, b);
    LinkedAt(l, next, prev, j);
    UnlinkedAt(l, next, prev, k, j, b);
    WithoutIs(l, b);
  }

  // brelse's first two lines.
  lemma Unlinked(l: seq<nat>, next: seq<nat>, prev: seq<nat>, b: nat)
    requires Linked(l, next, prev) && Permutation(l) && b < NBUF && b in l
    ensures |next| == NBUF + 1 == |prev| && next[b] <= NBUF && prev[b] <= NBUF && b !in Without(l, b)
    ensures OutPrev(next, prev, b)[b] == prev[b] && Linked(Without(l, b), OutNext(next, prev, b), OutPrev(next, prev, b))
  {
    hide Place;
    hide Permutation;
    hide Linked;
    hide Without;
    hide NodeOk;
    OnList(l, b);
    LinkedAt(l, next, prev, Place(l, b));
    UnlinkedHead(l, next, prev, Place(l, b), b);
    WithoutIs(l, b);
    var l1, n1, p1 := Without(l, b), OutNext(next, prev, b), OutPrev(next, prev, b);
    forall i: nat | i < |l1| ensures NodeOk(l1, n1, p1, i) { UnlinkedNode(l, next, prev, b, i); }
    LinkedAll(l1, n1, p1);
  }

  lemma WithoutIs(l: seq<nat>, b: nat)
    requires Permutation(l) && b < NBUF && b in l
    ensures |Without(l, b)| == NBUF - 1 && b !in Without(l, b)
    ensures forall i: nat | i < NBUF - 1 :: Without(l, b)[i] == l[if i < Place(l, b) then i else i + 1]
  {
    hide Place;
  }

  /** brelse's unlinking and insertion. */
  lemma MoveFront(l: seq<nat>, next: seq<nat>, prev: seq<nat>, b: nat)
    requires Linked(l, next, prev) && Permutation(l) && b < NBUF && b in l
    ensures |next| == NBUF + 1 == |prev| && next[b] <= NBUF && prev[b] <= NBUF && OutPrev(next, prev, b)[b] == prev[b]
    ensures var n1, p1 := OutNext(next, prev, b), OutPrev(next, prev, b);
      n1[HEAD] <= NBUF && Linked(ToFront(l, b), FrontNext(n1, b), FrontPrev(n1, p1, b))
  {
    hide Permutation;
    hide Place;
    hide Linked;
    hide FrontNext;
    hide FrontPrev;
    Unlinked(l, next, prev, b);
    InsertFront(Without(l, b), OutNext(next, prev, b), OutPrev(next, prev, b), b);
    assert [b] + Without(l, b) == ToFront(l, b);
  }
}
