/** The buffer cache of P5_XV6_CoW_Fork/kernel/bio.c: ten buffers on a list in the order of their
    last release, shared by all processes. */
module Bio {
  import opened Wrappers

  const NBUF: nat := 10
  const NODEV: nat := 0xFFFF_FFFF

  type Data = seq<int>

  // busy: some process holds it.  valid: data has been read from the disk or written to it.
  datatype Buf = Buf(dev: nat, sector: nat, busy: bool, valid: bool, data: Data)

  /** lru: the list from head.next on, most recently released first.  stamp: when each buffer was
      last released, by the clock that counts releases. */
  datatype Cache = Cache(bufs: seq<Buf>, lru: seq<nat>, disk: map<(nat, nat), Data>, stamp: seq<int>, clock: int)

  predicate Wf(c: Cache) { |c.bufs| == NBUF && |c.stamp| == NBUF && |c.lru| == NBUF && forall i | 0 <= i < NBUF :: c.lru[i] < NBUF }

  function OnDisk(c: Cache, dev: nat, sector: nat): Data { if (dev, sector) in c.disk then c.disk[(dev, sector)] else [] }

  predicate Holds(b: Buf, dev: nat, sector: nat) { b.dev == dev && b.sector == sector }

  /** bget's first loop: the first buffer on the list, from place i, with that sector. */
  function Cached(c: Cache, dev: nat, sector: nat, i: nat): (r: Option<nat>)
    requires Wf(c) && i <= NBUF
    ensures r.Some? ==> r.value < NBUF && Holds(c.bufs[r.value], dev, sector)
    ensures r.None? ==> forall j | i <= j < NBUF :: !Holds(c.bufs[c.lru[j]], dev, sector)
    decreases NBUF - i
  {
    if i == NBUF then None
    else if Holds(c.bufs[c.lru[i]], dev, sector) then Some(c.lru[i])
    else Cached(c, dev, sector, i + 1)
  }

  /** bget's second loop: the last buffer before place i that nobody holds. */
  function Oldest(c: Cache, i: nat): (r: Option<nat>)
    requires Wf(c) && i <= NBUF
    ensures r.Some? ==> r.value < i && !c.bufs[c.lru[r.value]].busy && forall j | r.value < j < i :: c.bufs[c.lru[j]].busy
    ensures r.None? ==> forall j | 0 <= j < i :: c.bufs[c.lru[j]].busy
  {
    if i == 0 then None else if !c.bufs[c.lru[i - 1]].busy then Some(i - 1) else Oldest(c, i - 1)
  }

  datatype Got = Has(c: Cache, b: nat) | Wait | NoBuffers

  /** bget; Wait is the sleep on a busy buffer, after which it starts again. */
  function Bget(c: Cache, dev: nat, sector: nat): (g: Got)
    requires Wf(c)
    ensures g.Has? ==> Wf(g.c) && g.b < NBUF
  {
    match Cached(c, dev, sector, 0)
    case Some(b) => if c.bufs[b].busy then Wait else Has(c.(bufs := c.bufs[b := c.bufs[b].(busy := true)]), b)
    case None =>
      match Oldest(c, NBUF)
      case None => NoBuffers
      case Some(i) => Has(c.(bufs := c.bufs[c.lru[i] := Buf(dev, sector, true, false, c.bufs[c.lru[i]].data)]), c.lru[i])
  }

  /** The disk driver reads into a buffer that is not valid. */
  function Fill(c: Cache, b: nat): Cache
    requires Wf(c) && b < NBUF
  {
    c.(bufs := c.bufs[b := c.bufs[b].(valid := true, data := OnDisk(c, c.bufs[b].dev, c.bufs[b].sector))])
  }

  /** bwrite; None is the panic. */
  function Bwrite(c: Cache, b: nat): (r: Option<Cache>)
    requires Wf(c) && b < NBUF
    ensures r.Some? ==> Wf(r.value)
  {
    if !c.bufs[b].busy then None
    else Some(c.(bufs := c.bufs[b := c.bufs[b].(valid := true)],
                 disk := c.disk[(c.bufs[b].dev, c.bufs[b].sector) := c.bufs[b].data]))
  }

  function Place(lru: seq<nat>, b: nat): (i: nat)
    requires b in lru
    ensures i < |lru| && lru[i] == b
  {
    if lru[0] == b then 0 else 1 + Place(lru[1..], b)
  }

  function ToFront(lru: seq<nat>, b: nat): seq<nat>
    requires b in lru
  {
    [b] + lru[..Place(lru, b)] + lru[Place(lru, b) + 1..]
  }

  /** brelse; None is the panic. */
  function Brelse(c: Cache, b: nat): Option<Cache>
    requires Wf(c) && b < NBUF && b in c.lru
  {
    if !c.bufs[b].busy then None
    else Some(c.(bufs := c.bufs[b := c.bufs[b].(busy := false)], lru := ToFront(c.lru, b),
                 stamp := c.stamp[b := c.clock], clock := c.clock + 1))
  }

  // ---------------------------------------------------------------- the invariant

  /** Every buffer is on the list once. */
  ghost predicate Permutation(lru: seq<nat>) {
    && |lru| == NBUF && (forall i | 0 <= i < NBUF :: lru[i] < NBUF)
    && (forall i, j | 0 <= i < j < NBUF :: lru[i] != lru[j])
    && (forall b: nat | b < NBUF :: b in lru)
  }

  /** The list is in the order of the last releases. */
  ghost predicate InOrder(c: Cache)
    requires Wf(c)
  {
    && (forall i, j | 0 <= i < j < NBUF :: c.stamp[c.lru[i]] > c.stamp[c.lru[j]])
    && (forall b | 0 <= b < NBUF :: c.stamp[b] < c.clock)
  }

  /** No sector is in two buffers. */
  ghost predicate NoTwins(c: Cache)
    requires Wf(c)
  {
    forall a, b | 0 <= a < b < NBUF && c.bufs[a].dev != NODEV :: !Holds(c.bufs[b], c.bufs[a].dev, c.bufs[a].sector)
  }

  /** A valid buffer that nobody holds is the sector on the disk. */
  ghost predicate Current(c: Cache)
    requires Wf(c)
  {
    forall b | 0 <= b < NBUF && c.bufs[b].valid && !c.bufs[b].busy :: c.bufs[b].data == OnDisk(c, c.bufs[b].dev, c.bufs[b].sector)
  }

  /** A buffer that has never been used is not in use. */
  ghost predicate NodevIdle(c: Cache)
    requires Wf(c)
  {
    forall b | 0 <= b < NBUF && c.bufs[b].dev == NODEV :: !c.bufs[b].valid && !c.bufs[b].busy
  }

  /** What every operation keeps, whatever the holders write or leave unwritten. */
  ghost predicate Shape(c: Cache) { Wf(c) && Permutation(c.lru) && InOrder(c) && NoTwins(c) && NodevIdle(c) }

  /** What they keep while holders write back before they release. */
  ghost predicate Inv(c: Cache) { Shape(c) && Current(c) }

  /** The list after binit, which puts the buffers in front one by one. */
  function Initial(disk: map<(nat, nat), Data>): Cache {
    Cache(seq(NBUF, i => Buf(NODEV, 0, false, false, [])), seq(NBUF, i requires 0 <= i < NBUF => NBUF - 1 - i), disk, seq(NBUF, i => i - NBUF), 0)
  }

  lemma InitialInv(disk: map<(nat, nat), Data>)
    ensures Inv(Initial(disk))
  {
    var c := Initial(disk);
    forall b: nat | b < NBUF ensures b in c.lru { assert c.lru[NBUF - 1 - b] == b; }
  }

  lemma OnList(lru: seq<nat>, b: nat)
    requires Permutation(lru) && b < NBUF
    ensures |lru| == NBUF && b in lru && Place(lru, b) < NBUF && lru[Place(lru, b)] == b
  {
  }

  /** A sector that is cached is found: the loop meets every buffer. */
  lemma CachedFinds(c: Cache, dev: nat, sector: nat, b: nat)
    requires Shape(c) && b < NBUF && dev != NODEV && Holds(c.bufs[b], dev, sector)
    ensures Cached(c, dev, sector, 0) == Some(b)
  {
    hide Cached;
    hide Permutation;
    hide Place;
    hide InOrder;
    OnList(c.lru, b);
    var r := Cached(c, dev, sector, 0);
    assert r.Some?;
    assert Holds(c.bufs[r.value], dev, sector);
  }

  // A change to one buffer.
  lemma OneBufInv(c: Cache, b: nat, x: Buf)
    requires Shape(c) && b < NBUF && x.dev != NODEV && x.busy
    requires forall a | 0 <= a < NBUF && a != b :: !Holds(c.bufs[a], x.dev, x.sector)
    ensures Shape(c.(bufs := c.bufs[b := x])) && (Current(c) ==> Current(c.(bufs := c.bufs[b := x])))
  {
    hide Permutation;
    var c1 := c.(bufs := c.bufs[b := x]);
    assert Wf(c1) && InOrder(c1);
  }

  lemma BgetInv(c: Cache, dev: nat, sector: nat)
    requires Shape(c) && dev != NODEV && Bget(c, dev, sector).Has?
    ensures var g := Bget(c, dev, sector);
      Shape(g.c) && (Current(c) ==> Current(g.c)) && g.c.bufs[g.b].busy && !c.bufs[g.b].busy && Holds(g.c.bufs[g.b], dev, sector) && g.c.disk == c.disk
  {
    hide Permutation;
    hide InOrder;
    hide NoTwins;
    hide NodevIdle;
    hide Current;
    hide Cached;
    hide Oldest;
    var g := Bget(c, dev, sector);
    forall a: nat | a < NBUF && a != g.b ensures !Holds(c.bufs[a], dev, sector) {
      if Holds(c.bufs[a], dev, sector) { CachedFinds(c, dev, sector, a); }
    }
    OneBufInv(c, g.b, g.c.bufs[g.b]);
  }

  /** bget recycles the buffer that was released longest ago of those nobody holds; it panics only
      when all are held. */
  lemma BgetRecycles(c: Cache, dev: nat, sector: nat)
    requires Shape(c) && dev != NODEV && (forall b | 0 <= b < NBUF :: !Holds(c.bufs[b], dev, sector))
    ensures match Bget(c, dev, sector)
      case Has(c1, b) =>
        && forall a | 0 <= a < NBUF && !c.bufs[a].busy && a != b :: c.stamp[b] < c.stamp[a]
      case Wait => false
      case NoBuffers => forall b | 0 <= b < NBUF :: c.bufs[b].busy
  {
    hide NoTwins;
    hide NodevIdle;
    hide Cached;
    hide Oldest;
    hide Permutation;
    hide Place;
    var o := Oldest(c, NBUF);
    forall a: nat | a < NBUF && !c.bufs[a].busy ensures o.Some? && (a != c.lru[o.value] ==> c.stamp[c.lru[o.value]] < c.stamp[a]) {
      OnList(c.lru, a);
      var i := Place(c.lru, a);
      assert !c.bufs[c.lru[i]].busy;
    }
  }

  lemma ToFrontAt(lru: seq<nat>, b: nat)
    requires b in lru
    ensures |ToFront(lru, b)| == |lru| && ToFront(lru, b)[0] == b
    ensures forall i | 1 <= i <= Place(lru, b) :: ToFront(lru, b)[i] == lru[i - 1]
    ensures forall i | Place(lru, b) < i < |lru| :: ToFront(lru, b)[i] == lru[i]
  {
    hide Place;
  }

  lemma ToFrontHas(lru: seq<nat>, b: nat, a: nat)
    requires Permutation(lru) && b in lru && a < NBUF
    ensures a in ToFront(lru, b)
  {
    hide ToFront;
    hide Permutation;
    ToFrontAt(lru, b);
    OnList(lru, a);
    var i, k := Place(lru, a), Place(lru, b);
    if i < k { assert ToFront(lru, b)[i + 1] == lru[i + 1 - 1]; }
    else if i > k { assert ToFront(lru, b)[i] == lru[i]; }
    else { assert ToFront(lru, b)[0] == a; }
  }

  lemma ToFrontIs(lru: seq<nat>, b: nat)
    requires Permutation(lru) && b < NBUF
    ensures b in lru && Permutation(ToFront(lru, b)) && ToFront(lru, b)[0] == b
    ensures forall i | 1 <= i <= Place(lru, b) :: ToFront(lru, b)[i] == lru[i - 1]
    ensures forall i | Place(lru, b) < i < NBUF :: ToFront(lru, b)[i] == lru[i]
  {
    hide ToFront;
    ToFrontAt(lru, b);
    forall a: nat | a < NBUF ensures a in ToFront(lru, b) { ToFrontHas(lru, b, a); }
  }

  /** What the buffer's holder leaves is what the disk has. */
  predicate WrittenBack(c: Cache, b: nat)
    requires Wf(c) && b < NBUF
  {
    c.bufs[b].valid ==> c.bufs[b].data == OnDisk(c, c.bufs[b].dev, c.bufs[b].sector)
  }

  lemma BrelseInv(c: Cache, b: nat)
    requires Shape(c) && b < NBUF && c.bufs[b].busy
    ensures b in c.lru && Brelse(c, b).Some? && Shape(Brelse(c, b).value)
    ensures Current(c) && WrittenBack(c, b) ==> Current(Brelse(c, b).value)
  {
    hide ToFront;
    ToFrontIs(c.lru, b);
    var c1 := Brelse(c, b).value;
    assert Wf(c1);
    BrelseOrder(c, b);
  }

  lemma BrelseOrder(c: Cache, b: nat)
    requires Shape(c) && b < NBUF && b in c.lru && c.bufs[b].busy
    ensures Wf(Brelse(c, b).value) && InOrder(Brelse(c, b).value)
  {
    hide ToFront;
    hide NoTwins;
    hide NodevIdle;
    hide Place;
    ToFrontIs(c.lru, b);
    var c1, k := Brelse(c, b).value, Place(c.lru, b);
    assert c1.lru == ToFront(c.lru, b) && c.lru[k] == b;
    forall i, j | 0 <= i < j < NBUF ensures c1.stamp[c1.lru[i]] > c1.stamp[c1.lru[j]] {
      Moved(c.lru, b, j);
      if i > 0 { Moved(c.lru, b, i); }
    }
  }

  // Where the others are after a move to the front: in the same order.
  lemma Moved(lru: seq<nat>, b: nat, i: int)
    requires Permutation(lru) && b < NBUF && b in lru && 1 <= i < NBUF
    ensures |ToFront(lru, b)| == NBUF
    ensures var j := if i <= Place(lru, b) then i - 1 else i; ToFront(lru, b)[i] == lru[j] && lru[j] != b
  {
    ToFrontIs(lru, b);
  }

  // ---------------------------------------------------------------- runs

  /** What processes do with the cache.  Get is a bget that returns b.  The holder of a buffer may
      change its data. */
  datatype Action =
    | Get(dev: nat, sector: nat, b: nat)
    | ReadIn(b: nat)
    | Change(b: nat, data: Data)
    | WriteBack(b: nat)
    | Release(b: nat)

  function Step(c: Cache, a: Action): (r: Option<Cache>)
    requires Wf(c)
    ensures r.Some? ==> Wf(r.value) || a.Release?
  {
    match a
    case Get(dev, sector, b) =>
      if dev == NODEV then None else (match Bget(c, dev, sector) case Has(c1, b1) => if b1 == b then Some(c1) else None case _ => None)
    case ReadIn(b) => if b >= NBUF || !c.bufs[b].busy || c.bufs[b].valid then None else Some(Fill(c, b))
    case Change(b, data) =>
      if b >= NBUF || !c.bufs[b].busy || !c.bufs[b].valid then None else Some(c.(bufs := c.bufs[b := c.bufs[b].(data := data)]))
    case WriteBack(b) => if b >= NBUF then None else Bwrite(c, b)
    case Release(b) => if b >= NBUF || b !in c.lru then None else Brelse(c, b)
  }

  lemma WriteBackInv(c: Cache, b: nat)
    requires Shape(c) && b < NBUF && c.bufs[b].busy
    ensures Shape(Bwrite(c, b).value) && (Current(c) ==> Current(Bwrite(c, b).value))
  {
    hide Permutation;
  }

  lemma StepInv(c: Cache, a: Action)
    requires Shape(c) && Step(c, a).Some?
    ensures Shape(Step(c, a).value)
    ensures Current(c) && (a.Release? ==> WrittenBack(c, a.b)) ==> Current(Step(c, a).value)
  {
    hide Bget;
    hide Bwrite;
    hide Brelse;
    hide Permutation;
    match a
    case Get(dev, sector, b) => BgetInv(c, dev, sector);
    case ReadIn(b) =>
    case Change(b, data) =>
    case WriteBack(b) => BwriteSome(c, b); WriteBackInv(c, b);
    case Release(b) => BrelseSome(c, b); BrelseInv(c, b);
  }

  lemma BwriteSome(c: Cache, b: nat)
    requires Wf(c) && b < NBUF && Bwrite(c, b).Some?
    ensures c.bufs[b].busy
  {
  }

  lemma BrelseSome(c: Cache, b: nat)
    requires Wf(c) && b < NBUF && b in c.lru && Brelse(c, b).Some?
    ensures c.bufs[b].busy
  {
  }

  ghost function Run(c: Cache, run: seq<Action>): (r: Option<Cache>)
    requires Shape(c)
    ensures r.Some? ==> Shape(r.value)
    decreases |run|
  {
    if run == [] then Some(c)
    else if Step(c, run[0]).None? then None
    else StepInv(c, run[0]); Run(Step(c, run[0]).value, run[1..])
  }

  /** Holders write back before they release. */
  ghost predicate Tidy(c: Cache, run: seq<Action>)
    requires Shape(c)
    decreases |run|
  {
    run != [] && Step(c, run[0]).Some? ==>
      && (run[0].Release? ==> WrittenBack(c, run[0].b))
      && (StepInv(c, run[0]); Tidy(Step(c, run[0]).value, run[1..]))
  }

  lemma {:induction false} TidyRun(c: Cache, run: seq<Action>)
    requires Inv(c) && Run(c, run).Some? && Tidy(c, run)
    ensures Inv(Run(c, run).value)
    decreases |run|
  {
    hide Permutation;
    hide InOrder;
    hide NoTwins;
    hide NodevIdle;
    hide Current;
    hide Step;
    if run != [] {
      StepInv(c, run[0]);
      TidyRun(Step(c, run[0]).value, run[1..]);
    }
  }

  /** Transparency: after any run in which holders write back, bread returns the buffer of that sector
      with what the disk has now, and no other buffer has that sector. */
  lemma BreadIsCurrent(disk: map<(nat, nat), Data>, run: seq<Action>, dev: nat, sector: nat)
    requires dev != NODEV && (InitialInv(disk); Run(Initial(disk), run).Some? && Tidy(Initial(disk), run))
    requires (InitialInv(disk); Bget(Run(Initial(disk), run).value, dev, sector).Has?)
    ensures Shape(Initial(disk))
    ensures var c := Run(Initial(disk), run).value;
      var g := Bget(c, dev, sector);
      var c1 := if g.c.bufs[g.b].valid then g.c else Fill(g.c, g.b);
      && Holds(c1.bufs[g.b], dev, sector) && c1.bufs[g.b].busy && c1.bufs[g.b].data == OnDisk(c1, dev, sector) && c1.disk == c.disk
      && forall a | 0 <= a < NBUF && a != g.b :: !Holds(c1.bufs[a], dev, sector)
  {
    hide Run;
    hide Permutation;
    hide InOrder;
    hide Tidy;
    InitialInv(disk);
    var c := Run(Initial(disk), run).value;
    TidyRun(Initial(disk), run);
    BgetInv(c, dev, sector);
    var g := Bget(c, dev, sector);
    forall a: nat | a < NBUF && a != g.b ensures !Holds(g.c.bufs[a], dev, sector) {
      if a < g.b { assert Holds(g.c.bufs[g.b], dev, sector); }
    }
  }

  /** And only if holders write back: a buffer released with other data than the disk's is what the
      next bread of its sector returns. */
  lemma DirtyReleaseShows(c: Cache, b: nat)
    requires Shape(c) && b < NBUF && c.bufs[b].busy && !WrittenBack(c, b)
    ensures b in c.lru && Brelse(c, b).Some? && Wf(Brelse(c, b).value)
    ensures var c1, x := Brelse(c, b).value, c.bufs[b];
      var g := Bget(c1, x.dev, x.sector);
      g.Has? && g.b == b && g.c.bufs[b].valid && g.c.bufs[b].data != OnDisk(g.c, x.dev, x.sector)
  {
    hide ToFront;
    hide Cached;
    ToFrontIs(c.lru, b);
    var c1, x := Brelse(c, b).value, c.bufs[b];
    FirstOnList(c1, x.dev, x.sector);
  }

  lemma FirstOnList(c: Cache, dev: nat, sector: nat)
    requires Wf(c) && Holds(c.bufs[c.lru[0]], dev, sector)
    ensures Cached(c, dev, sector, 0) == Some(c.lru[0])
  {
  }
}
