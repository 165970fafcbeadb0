/** The buffer cache of P5_XV6_CoW_Fork/kernel/bio.c told by what processes did with it, from binit
    on: which buffer has which sector, what a sector holds, who was released when. */
module BioHistory {
  import opened Wrappers
  import opened Bio

  // ---------------------------------------------------------------- one step

  /** bwrite reaches the disk: the buffer's sector, and no other, has the buffer's data. */
  lemma WriteBackLaw(c: Cache, b: nat, dev: nat, sector: nat)
    requires Wf(c) && b < NBUF
    ensures Step(c, WriteBack(b)).Some? <==> c.bufs[b].busy
    ensures Step(c, WriteBack(b)).Some? ==>
      var c1 := Step(c, WriteBack(b)).value;
      && OnDisk(c1, c.bufs[b].dev, c.bufs[b].sector) == c.bufs[b].data
      && ((dev, sector) != (c.bufs[b].dev, c.bufs[b].sector) ==> OnDisk(c1, dev, sector) == OnDisk(c, dev, sector))
  {
  }

  // ---------------------------------------------------------------- the history

  function Last(run: seq<Action>): Action
    requires run != []
  {
    run[|run| - 1]
  }

  function Init(run: seq<Action>): seq<Action>
    requires run != []
  {
    run[..|run| - 1]
  }

  /** The sector of buffer b: that of its last bget. */
  function SectorOf(run: seq<Action>, b: nat): (nat, nat) {
    if run == [] then (NODEV, 0)
    else if Last(run).Get? && Last(run).b == b then (Last(run).dev, Last(run).sector)
    else SectorOf(Init(run), b)
  }

  /** Somebody holds buffer b: it was got and has not been released since. */
  predicate Held(run: seq<Action>, b: nat) {
    if run == [] then false
    else if Last(run).Get? && Last(run).b == b then true
    else if Last(run) == Release(b) then false
    else Held(Init(run), b)
  }

  /** When buffer b was last released; those never released count in the order binit left them. */
  function Released(run: seq<Action>, b: nat): int {
    if run == [] then b - NBUF
    else if Last(run) == Release(b) then |run| - 1
    else Released(Init(run), b)
  }

  /** The holder of b has changed it since it got it and has not written it back. */
  predicate Unwritten(run: seq<Action>, b: nat) {
    if run == [] then false
    else match Last(run)
      case Change(a, _) => a == b || Unwritten(Init(run), b)
      case WriteBack(a) => a != b && Unwritten(Init(run), b)
      case Get(_, _, a) => a != b && Unwritten(Init(run), b)
      case _ => Unwritten(Init(run), b)
  }

  // What the sector holds by the writes so far, and what is in the buffer by all that was done to it.
  function Content(disk: map<(nat, nat), Data>, run: seq<Action>, key: (nat, nat)): Data {
    if run == [] then (if key in disk then disk[key] else [])
    else if Last(run).WriteBack? && SectorOf(Init(run), Last(run).b) == key then InBuffer(disk, Init(run), Last(run).b)
    else Content(disk, Init(run), key)
  }

  function InBuffer(disk: map<(nat, nat), Data>, run: seq<Action>, b: nat): Data {
    if run == [] then []
    else match Last(run)
      case Change(a, data) => if a == b then data else InBuffer(disk, Init(run), b)
      case ReadIn(a) => if a == b then Content(disk, Init(run), SectorOf(Init(run), b)) else InBuffer(disk, Init(run), b)
      case _ => InBuffer(disk, Init(run), b)
  }

  // ---------------------------------------------------------------- the cache has what the history says

  ghost predicate Tells(disk: map<(nat, nat), Data>, run: seq<Action>, c: Cache)
    requires Wf(c)
  {
    && (forall b: nat | b < NBUF :: TellsBuf(disk, run, c, b))
    && (forall dev: nat, sector: nat :: OnDisk(c, dev, sector) == Content(disk, run, (dev, sector)))
  }

  ghost predicate TellsBuf(disk: map<(nat, nat), Data>, run: seq<Action>, c: Cache, b: nat)
    requires Wf(c) && b < NBUF
  {
    && (c.bufs[b].dev, c.bufs[b].sector) == SectorOf(run, b) && (c.bufs[b].busy <==> Held(run, b))
    && c.bufs[b].data == InBuffer(disk, run, b)
  }

  // The releases in the order of the stamps.
  ghost predicate TellsOrder(run: seq<Action>, c: Cache)
    requires Wf(c)
  {
    && (forall b: nat | b < NBUF :: Released(run, b) < |run|)
    && (forall a: nat, b: nat | a < NBUF && b < NBUF :: c.stamp[a] < c.stamp[b] <==> Released(run, a) < Released(run, b))
  }

  lemma StepTellsBuf(disk: map<(nat, nat), Data>, run: seq<Action>, c: Cache, b: nat)
    requires run != [] && Shape(c) && Tells(disk, Init(run), c) && Step(c, Last(run)).Some? && b < NBUF
    ensures Wf(Step(c, Last(run)).value) && TellsBuf(disk, run, Step(c, Last(run)).value, b)
  {
    hide Permutation;
    hide InOrder;
    hide NoTwins;
    hide NodevIdle;
    hide ToFront;
    hide Cached;
    hide Oldest;
    StepInv(c, Last(run));
    assert TellsBuf(disk, Init(run), c, b);
    if Last(run).Get? { BgetInv(c, Last(run).dev, Last(run).sector); }
    if Last(run).Release? { BrelseSome(c, Last(run).b); }
  }

  lemma StepTellsDisk(disk: map<(nat, nat), Data>, run: seq<Action>, c: Cache, dev: nat, sector: nat)
    requires run != [] && Shape(c) && Tells(disk, Init(run), c) && Step(c, Last(run)).Some?
    ensures OnDisk(Step(c, Last(run)).value, dev, sector) == Content(disk, run, (dev, sector))
  {
    hide Permutation;
    hide InOrder;
    hide NoTwins;
    hide NodevIdle;
    hide ToFront;
    hide Cached;
    hide Oldest;
    assert OnDisk(c, dev, sector) == Content(disk, Init(run), (dev, sector));
    if Last(run).WriteBack? { assert TellsBuf(disk, Init(run), c, Last(run).b); }
  }

  lemma StepStamps(run: seq<Action>, c: Cache, b: nat)
    requires run != [] && Shape(c) && Step(c, Last(run)).Some? && b < NBUF
    ensures var c1 := Step(c, Last(run)).value;
      && |c1.stamp| == NBUF && c.stamp[b] < c.clock
      && (if Last(run) == Release(b) then c1.stamp[b] == c.clock && Released(run, b) == |run| - 1
          else c1.stamp[b] == c.stamp[b] && Released(run, b) == Released(Init(run), b))
  {
    hide Permutation;
    hide NoTwins;
    hide NodevIdle;
    hide ToFront;
    hide Cached;
    hide Oldest;
  }

  lemma StepTellsOrder(run: seq<Action>, c: Cache)
    requires run != [] && Shape(c) && TellsOrder(Init(run), c) && Step(c, Last(run)).Some?
    ensures Wf(Step(c, Last(run)).value) && TellsOrder(run, Step(c, Last(run)).value)
  {
    hide Step;
    hide Permutation;
    hide InOrder;
    hide NoTwins;
    hide NodevIdle;
    StepInv(c, Last(run));
    forall b: nat | b < NBUF ensures Released(run, b) < |run| { StepStamps(run, c, b); }
    forall a: nat, b: nat | a < NBUF && b < NBUF
      ensures Step(c, Last(run)).value.stamp[a] < Step(c, Last(run)).value.stamp[b] <==> Released(run, a) < Released(run, b)
    {
      StepStamps(run, c, a);
      StepStamps(run, c, b);
      assert c.stamp[a] < c.stamp[b] <==> Released(Init(run), a) < Released(Init(run), b);
      assert Released(Init(run), a) < |Init(run)| && Released(Init(run), b) < |Init(run)|;
    }
  }

  ghost function Booted(disk: map<(nat, nat), Data>, run: seq<Action>): (r: Option<Cache>)
    ensures r.Some? ==> Shape(r.value)
  {
    InitialInv(disk);
    Run(Initial(disk), run)
  }

  lemma {:induction false} RunLast(c: Cache, run: seq<Action>)
    requires Shape(c) && run != [] && Run(c, run).Some?
    ensures Run(c, Init(run)).Some? && Step(Run(c, Init(run)).value, Last(run)) == Run(c, run)
    decreases |run|
  {
    hide Step;
    hide Permutation;
    hide InOrder;
    hide NoTwins;
    hide NodevIdle;
    if |run| > 1 {
      StepInv(c, run[0]);
      RunLast(Step(c, run[0]).value, run[1..]);
      assert Init(run)[1..] == Init(run[1..]) && Last(run[1..]) == Last(run);
    }
  }

  /** After every run from binit the cache and the disk are what the history says. */
  lemma {:induction false} HistoryTells(disk: map<(nat, nat), Data>, run: seq<Action>)
    requires Booted(disk, run).Some?
    ensures Tells(disk, run, Booted(disk, run).value) && TellsOrder(run, Booted(disk, run).value)
    decreases |run|
  {
    hide Step;
    hide Run;
    hide Permutation;
    hide InOrder;
    hide NoTwins;
    hide NodevIdle;
    InitialInv(disk);
    if run == [] {
      StartTells(disk);
    } else {
      RunLast(Initial(disk), run);
      HistoryTells(disk, Init(run));
      var c := Booted(disk, Init(run)).value;
      forall b: nat | b < NBUF ensures TellsBuf(disk, run, Step(c, Last(run)).value, b) { StepTellsBuf(disk, run, c, b); }
      forall dev: nat, sector: nat ensures OnDisk(Step(c, Last(run)).value, dev, sector) == Content(disk, run, (dev, sector)) {
        StepTellsDisk(disk, run, c, dev, sector);
      }
      StepTellsOrder(run, c);
    }
  }

  lemma StartTells(disk: map<(nat, nat), Data>)
    ensures Booted(disk, []) == Some(Initial(disk)) && Tells(disk, [], Initial(disk)) && TellsOrder([], Initial(disk))
  {
    InitialInv(disk);
  }

  // ---------------------------------------------------------------- which buffer bget gives

  predicate Free(run: seq<Action>, a: nat) { a < NBUF && !Held(run, a) }

  predicate Carries(run: seq<Action>, a: nat, dev: nat, sector: nat) { a < NBUF && SectorOf(run, a) == (dev, sector) }

  // Buffer b of c1 is the caller's, with what was in it if it had the sector; nothing else changes.
  ghost predicate Took(c: Cache, c1: Cache, b: nat, dev: nat, sector: nat)
    requires Wf(c) && Wf(c1) && b < NBUF
  {
    && c1 == c.(bufs := c.bufs[b := c1.bufs[b]]) && c1.bufs[b].busy && Holds(c1.bufs[b], dev, sector)
    && (if Holds(c.bufs[b], dev, sector) then c1.bufs[b] == c.bufs[b].(busy := true) else !c1.bufs[b].valid)
  }

  // No buffer has the sector, and b was released before all other free ones.
  ghost predicate LeastRecent(run: seq<Action>, b: nat, dev: nat, sector: nat) {
    && (forall a: nat :: !Carries(run, a, dev, sector))
    && (forall a: nat | Free(run, a) && a != b :: Released(run, b) < Released(run, a))
  }

  // The same of the cache's fields.
  ghost predicate LeastStamp(c: Cache, b: nat, dev: nat, sector: nat)
    requires Wf(c) && b < NBUF
  {
    && (forall a: nat | a < NBUF :: !Holds(c.bufs[a], dev, sector))
    && (forall a: nat | a < NBUF && !c.bufs[a].busy && a != b :: c.stamp[b] < c.stamp[a])
  }

  /** bget after any run: it sleeps exactly when the sector's buffer is held, it panics exactly when
      no buffer has the sector and all are held.  Otherwise it gives the sector's own buffer with
      what is in it, or, when there is none, the free buffer released longest ago, to be read in.  No
      other buffer changes, nor does the disk. */
  lemma BgetByHistory(disk: map<(nat, nat), Data>, run: seq<Action>, c: Cache, dev: nat, sector: nat)
    requires dev != NODEV && Booted(disk, run) == Some(c)
    ensures var g := Bget(c, dev, sector);
      && (g.Wait? <==> exists a: nat :: Carries(run, a, dev, sector) && Held(run, a))
      && (g.NoBuffers? <==> forall a: nat | a < NBUF :: !Carries(run, a, dev, sector) && Held(run, a))
      && (g.Has? ==> Took(c, g.c, g.b, dev, sector) && Free(run, g.b) && (Carries(run, g.b, dev, sector) || LeastRecent(run, g.b, dev, sector)))
  {
    hide Run;
    hide Permutation;
    hide InOrder;
    hide NoTwins;
    hide NodevIdle;
    hide Cached;
    hide Oldest;
    hide SectorOf;
    hide Held;
    hide Released;
    HistoryTells(disk, run);
    forall a: nat | a < NBUF
      ensures (Carries(run, a, dev, sector) <==> Holds(c.bufs[a], dev, sector)) && (Held(run, a) <==> c.bufs[a].busy)
    {
      assert TellsBuf(disk, run, c, a);
    }
    BgetCases(c, dev, sector);
    if Bget(c, dev, sector).Wait? {
      var a: nat :| a < NBUF && Holds(c.bufs[a], dev, sector) && c.bufs[a].busy;
      assert Carries(run, a, dev, sector) && Held(run, a);
    }
  }

  lemma BgetCases(c: Cache, dev: nat, sector: nat)
    requires Shape(c) && dev != NODEV
    ensures var g := Bget(c, dev, sector);
      && (g.Wait? <==> exists a: nat :: a < NBUF && Holds(c.bufs[a], dev, sector) && c.bufs[a].busy)
      && (g.NoBuffers? <==> forall a: nat | a < NBUF :: !Holds(c.bufs[a], dev, sector) && c.bufs[a].busy)
      && (g.Has? ==> Took(c, g.c, g.b, dev, sector) && !c.bufs[g.b].busy && (Holds(c.bufs[g.b], dev, sector) || LeastStamp(c, g.b, dev, sector)))
  {
    hide Permutation;
    hide InOrder;
    hide NoTwins;
    hide NodevIdle;
    hide Cached;
    hide Oldest;
    if exists a: nat :: a < NBUF && Holds(c.bufs[a], dev, sector) {
      var a: nat :| a < NBUF && Holds(c.bufs[a], dev, sector);
      forall b: nat | b < NBUF && Holds(c.bufs[b], dev, sector) ensures Cached(c, dev, sector, 0) == Some(b) { CachedFinds(c, dev, sector, b); }
    } else {
      BgetRecycles(c, dev, sector);
      if Bget(c, dev, sector).Has? { BgetInv(c, dev, sector); }
    }
  }

  // ---------------------------------------------------------------- what bread returns

  /** Holders that change a buffer write it back before they release it. */
  ghost predicate WroteBack(run: seq<Action>) {
    forall k | 0 <= k < |run| && run[k].Release? :: !Unwritten(run[..k], run[k].b)
  }

  // Held buffers without unwritten changes are what the disk has.
  ghost predicate Clean(run: seq<Action>, c: Cache)
    requires Wf(c)
  {
    forall b: nat | b < NBUF && c.bufs[b].busy && !Unwritten(run, b) :: WrittenBack(c, b)
  }

  lemma StepClean(run: seq<Action>, c: Cache)
    requires run != [] && Inv(c) && Clean(Init(run), c) && Step(c, Last(run)).Some?
    ensures Wf(Step(c, Last(run)).value) && Clean(run, Step(c, Last(run)).value)
  {
    hide Permutation;
    hide InOrder;
    hide ToFront;
    hide Cached;
    hide Oldest;
    StepInv(c, Last(run));
  }

  lemma {:induction false} TidyLast(c: Cache, run: seq<Action>)
    requires Shape(c) && run != [] && Run(c, run).Some? && Run(c, Init(run)).Some? && Tidy(c, Init(run))
    requires var m := Run(c, Init(run)).value; Last(run).Release? ==> Last(run).b < NBUF && WrittenBack(m, Last(run).b)
    ensures Tidy(c, run)
    decreases |run|
  {
    hide Step;
    hide Permutation;
    hide InOrder;
    hide NoTwins;
    hide NodevIdle;
    if |run| > 1 {
      StepInv(c, run[0]);
      assert Init(run)[1..] == Init(run[1..]) && Last(run[1..]) == Last(run);
      TidyLast(Step(c, run[0]).value, run[1..]);
    }
  }

  lemma {:induction false} WroteBackIsTidy(disk: map<(nat, nat), Data>, run: seq<Action>)
    requires Booted(disk, run).Some? && WroteBack(run)
    ensures Shape(Initial(disk)) && Tidy(Initial(disk), run) && Inv(Booted(disk, run).value) && Clean(run, Booted(disk, run).value)
    decreases |run|
  {
    hide Step;
    hide Permutation;
    hide InOrder;
    hide NoTwins;
    hide NodevIdle;
    hide Current;
    InitialInv(disk);
    if run != [] {
      RunLast(Initial(disk), run);
      assert forall k | 0 <= k < |run| - 1 :: Init(run)[..k] == run[..k];
      WroteBackIsTidy(disk, Init(run));
      var c := Booted(disk, Init(run)).value;
      if Last(run).Release? { ReleaseHeld(c, Last(run)); }
      TidyLast(Initial(disk), run);
      StepInv(c, Last(run));
      StepClean(run, c);
    }
  }

  lemma ReleaseHeld(c: Cache, a: Action)
    requires Wf(c) && a.Release? && Step(c, a).Some?
    ensures a.b < NBUF && c.bufs[a.b].busy
  {
  }

  /** Action k writes the sector: a bwrite of its buffer. */
  predicate Writes(run: seq<Action>, k: int, dev: nat, sector: nat) {
    0 <= k < |run| && run[k].WriteBack? && SectorOf(run[..k], run[k].b) == (dev, sector)
  }

  predicate LastWrites(run: seq<Action>, k: int, dev: nat, sector: nat) {
    Writes(run, k, dev, sector) && forall j | k < j < |run| :: !Writes(run, j, dev, sector)
  }

  /** Change j is the last to what buffer b has. */
  predicate LastChanges(run: seq<Action>, j: int, b: nat, data: Data) {
    0 <= j < |run| && run[j] == Change(b, data) && forall i | j < i < |run| :: !((run[i].Change? || run[i].ReadIn?) && run[i].b == b)
  }

  lemma {:induction false} ContentIs(disk: map<(nat, nat), Data>, run: seq<Action>, dev: nat, sector: nat, k: int)
    requires LastWrites(run, k, dev, sector)
    ensures Content(disk, run, (dev, sector)) == InBuffer(disk, run[..k], run[k].b)
    decreases |run|
  {
    if k < |run| - 1 {
      assert !Writes(run, |run| - 1, dev, sector);
      assert Init(run)[..k] == run[..k] && forall j | 0 <= j < |run| - 1 :: Init(run)[..j] == run[..j];
      forall j | k < j < |Init(run)| ensures !Writes(Init(run), j, dev, sector) { assert !Writes(run, j, dev, sector); }
      ContentIs(disk, Init(run), dev, sector, k);
    }
  }

  lemma {:induction false} NeverWritten(disk: map<(nat, nat), Data>, run: seq<Action>, dev: nat, sector: nat)
    requires forall k | 0 <= k < |run| :: !Writes(run, k, dev, sector)
    ensures Content(disk, run, (dev, sector)) == if (dev, sector) in disk then disk[(dev, sector)] else []
    decreases |run|
  {
    if run != [] {
      assert !Writes(run, |run| - 1, dev, sector);
      assert forall j | 0 <= j < |run| - 1 :: Init(run)[..j] == run[..j];
      forall k | 0 <= k < |Init(run)| ensures !Writes(Init(run), k, dev, sector) { assert !Writes(run, k, dev, sector); }
      NeverWritten(disk, Init(run), dev, sector);
    }
  }

  lemma {:induction false} InBufferIs(disk: map<(nat, nat), Data>, run: seq<Action>, j: int, b: nat, data: Data)
    requires LastChanges(run, j, b, data)
    ensures InBuffer(disk, run, b) == data
    decreases |run|
  {
    if j < |run| - 1 { InBufferIs(disk, Init(run), j, b, data); }
  }

  // The data of the buffer bread returns.
  function BreadData(c: Cache, dev: nat, sector: nat): Data
    requires Wf(c) && Bget(c, dev, sector).Has?
  {
    var g := Bget(c, dev, sector);
    if g.c.bufs[g.b].valid then g.c.bufs[g.b].data else Fill(g.c, g.b).bufs[g.b].data
  }

  lemma BreadIsContent(disk: map<(nat, nat), Data>, run: seq<Action>, dev: nat, sector: nat)
    requires dev != NODEV && Booted(disk, run).Some? && WroteBack(run) && Bget(Booted(disk, run).value, dev, sector).Has?
    ensures BreadData(Booted(disk, run).value, dev, sector) == Content(disk, run, (dev, sector))
  {
    hide Run;
    hide Permutation;
    hide InOrder;
    hide Tidy;
    hide WroteBack;
    hide Clean;
    hide Content;
    hide InBuffer;
    hide Cached;
    hide Oldest;
    WroteBackIsTidy(disk, run);
    HistoryTells(disk, run);
    BreadIsCurrent(disk, run, dev, sector);
  }

  /** After any run in which holders write back what they change, however often buffers were recycled
      between: bread returns what the last bwrite of the sector wrote, or what was on the disk at the
      start when there was none.  What a bwrite wrote is what its holder last stored, if it stored
      anything after the data was read in. */
  lemma BreadReturnsLastWrite(disk: map<(nat, nat), Data>, run: seq<Action>, dev: nat, sector: nat)
    requires dev != NODEV && Booted(disk, run).Some? && WroteBack(run) && Bget(Booted(disk, run).value, dev, sector).Has?
    ensures var data := BreadData(Booted(disk, run).value, dev, sector);
      && ((forall k | 0 <= k < |run| :: !Writes(run, k, dev, sector)) ==> data == if (dev, sector) in disk then disk[(dev, sector)] else [])
      && (forall k, j, x: Data | LastWrites(run, k, dev, sector) && LastChanges(run[..k], j, run[k].b, x) :: data == x)
  {
    hide Run;
    hide WroteBack;
    hide Content;
    hide InBuffer;
    hide BreadData;
    hide SectorOf;
    BreadIsContent(disk, run, dev, sector);
    if forall k | 0 <= k < |run| :: !Writes(run, k, dev, sector) { NeverWritten(disk, run, dev, sector); }
    forall k, j, x: Data | LastWrites(run, k, dev, sector) && LastChanges(run[..k], j, run[k].b, x)
      ensures BreadData(Booted(disk, run).value, dev, sector) == x
    {
      ContentIs(disk, run, dev, sector, k);
      InBufferIs(disk, run[..k], j, run[k].b, x);
    }
  }
}
