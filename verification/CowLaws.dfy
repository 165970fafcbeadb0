/** What the processes of P5_XV6_CoW_Fork see, told by the answers of their loads alone: what every
    step does to them, in bytes and addresses. */
module CowLaws {
  import opened Kalloc
  import opened Vm
  import opened VmProofs
  import opened CowFrames
  import opened CowSystem
  import opened CowBoot
  import opened Wrappers

  /** What a load by q at va would answer: the byte, or -1 if there is none. */
  function Reads(s: Sys, q: nat, va: nat): int
    requires SysWf(s)
  {
    match Step(s, Load(q, va), Cow) case Next(_, ret) => ret case Crash => -2
  }

  // The address after the last page of a process of that size.
  function End(sz: nat): nat { (sz + 4095) / 4096 * 4096 }

  ghost predicate SameFor(s: Sys, s1: Sys, q: nat)
    requires SysWf(s) && SysWf(s1)
  {
    forall x: nat :: Reads(s1, q, x) == Reads(s, q, x)
  }

  ghost predicate SameForOthers(s: Sys, s1: Sys, p: nat)
    requires SysWf(s) && SysWf(s1)
  {
    forall q: nat | q != p :: SameFor(s, s1, q)
  }

  ghost predicate SameForAll(s: Sys, s1: Sys)
    requires SysWf(s) && SysWf(s1)
  {
    forall q: nat :: SameFor(s, s1, q)
  }

  predicate Live(s: Sys, p: nat) { p in s.procs && !s.procs[p].zombie }

  /** What the step does to the answers of all loads. */
  ghost predicate Law(s: Sys, op: Op, s1: Sys, ret: int)
    requires SysWf(s) && SysWf(s1)
  {
    match op
    case Load(_, _) => SameForAll(s, s1)
    case Fault(_, _) => SameForAll(s, s1)
    case Store(p, va, b) =>
      && (ret == 0 <==> Reads(s, p, va) >= 0)
      && if ret == 0 then Reads(s1, p, va) == b && SameForOthers(s, s1, p) && forall x: nat | x != va :: Reads(s1, p, x) == Reads(s, p, x)
         else SameForAll(s, s1)
    case Fork(p) =>
      if ret < 0 then SameForAll(s, s1)
      else SameForOthers(s, s1, ret) && forall x: nat :: Reads(s, ret, x) == -1 && Reads(s1, ret, x) == Reads(s, p, x)
    case Sbrk(p, n) =>
      if !Live(s, p) || !IsInt(n) || n == 0 || (n > 0 && ret != 0) then SameForAll(s, s1)
      else
        var sz := s.procs[p].sz;
        && SameForOthers(s, s1, p)
        && forall x: nat ::
             if n > 0 then Reads(s1, p, x) == if End(sz) <= x < End(sz + n) then 0 else Reads(s, p, x)
             else
               var newsz := (sz + n) % 0x1_0000_0000;
               Reads(s1, p, x) == if newsz < sz && End(newsz) <= x then -1 else Reads(s, p, x)
    case Exit(p) =>
      if ret != 0 then SameForAll(s, s1) else SameForOthers(s, s1, p) && forall x: nat :: Reads(s1, p, x) == -1
    case Wait(_, c) =>
      if ret < 0 then SameForAll(s, s1) else SameForOthers(s, s1, c) && forall x: nat :: Reads(s1, c, x) == -1
  }

  // ---------------------------------------------------------------- on private memory

  ghost function IReads(m: Ideal, q: nat, x: nat): int {
    if q in m && !m[q].zombie && x < USERTOP && x / PGSIZE in m[q].pages then m[q].pages[x / PGSIZE][x % PGSIZE] else -1
  }

  lemma ReadsIs(s: Sys, q: nat, x: nat)
    requires SysInv(s) && SysWf(s)
    ensures Reads(s, q, x) == IReads(View(s), q, x)
    ensures Step(s, Load(q, x), Cow) == Step(s, Load(q, x), Eager) == Next(s, Reads(s, q, x))
  {
    hide SysInv;
    hide View;
    EnabledAlike(s, Load(q, x));
    if Enabled(s, Load(q, x)) { MappedIsVisible(s, q, x); }
  }

  // The bytes of one process.
  ghost function PReads(p: IProc, x: nat): int {
    if !p.zombie && x < USERTOP && x / PGSIZE in p.pages then p.pages[x / PGSIZE][x % PGSIZE] else -1
  }

  lemma PageOf(x: nat, v: nat)
    ensures v * 4096 <= x <==> v <= x / PGSIZE
  {
  }

  lemma StoreReads(p: IProc, va: nat, b: Byte, x: nat)
    requires va / PGSIZE in p.pages && !p.zombie && va < USERTOP
    ensures var v := va / PGSIZE;
      PReads(p.(pages := p.pages[v := p.pages[v][va % PGSIZE := b]]), x) == if x == va then b else PReads(p, x)
  {
  }

  lemma GrowReads(p: IProc, n: nat, x: nat)
    requires !p.zombie && p.sz + n <= USERTOP
    ensures PReads(p.(sz := p.sz + n, pages := GrowView(p.pages, PageRoundUp(p.sz), PageRoundUp(p.sz + n))), x)
            == if End(p.sz) <= x < End(p.sz + n) then 0 else PReads(p, x)
  {
    PageOf(x, PageRoundUp(p.sz));
    PageOf(x, PageRoundUp(p.sz + n));
    assert End(p.sz) == PageRoundUp(p.sz) * 4096 && End(p.sz + n) == PageRoundUp(p.sz + n) * 4096;
    assert End(p.sz + n) <= USERTOP;
  }

  lemma DropReads(p: IProc, newsz: nat, sz1: nat, x: nat)
    requires newsz < p.sz <= USERTOP && forall v | v in p.pages :: v < PageRoundUp(p.sz)
    ensures PReads(p.(sz := sz1, pages := DropView(p.pages, PageRoundUp(newsz), PageRoundUp(p.sz))), x)
            == if End(newsz) <= x then -1 else PReads(p, x)
  {
    PageOf(x, PageRoundUp(newsz));
    assert End(newsz) == PageRoundUp(newsz) * 4096;
  }

  lemma IReadsIs(m: Ideal, q: nat, x: nat)
    ensures IReads(m, q, x) == if q in m then PReads(m[q], x) else -1
  {
  }

  // ---------------------------------------------------------------- every step

  lemma ReadsBy(s: Sys, q: nat, x: nat)
    requires SysInv(s) && SysWf(s)
    ensures Reads(s, q, x) == if q in View(s) then PReads(View(s)[q], x) else -1
  {
    hide SysInv;
    hide View;
    ReadsIs(s, q, x);
    IReadsIs(View(s), q, x);
  }

  // Where the shown processes are the same, the answers are.
  lemma ShownSame(s: Sys, s1: Sys, q: nat)
    requires SysInv(s) && SysWf(s) && SysInv(s1) && SysWf(s1)
    requires q in View(s1) <==> q in View(s)
    requires q in View(s) ==> forall x: nat :: PReads(View(s1)[q], x) == PReads(View(s)[q], x)
    ensures SameFor(s, s1, q)
  {
    hide SysInv;
    hide View;
    hide PReads;
    hide Reads;
    forall x: nat ensures Reads(s1, q, x) == Reads(s, q, x) {
      ReadsBy(s, q, x);
      ReadsBy(s1, q, x);
    }
  }

  // Sizes are below USERTOP and nothing is mapped past them.
  lemma ShownBounds(s: Sys, p: nat)
    requires SysInv(s) && SysWf(s) && p in s.procs
    ensures p in View(s) && View(s)[p].sz == s.procs[p].sz <= USERTOP && View(s)[p].zombie == s.procs[p].zombie
    ensures forall v | v in View(s)[p].pages :: v < PageRoundUp(View(s)[p].sz)
  {
    hide VmInv;
    hide UserView;
    ViewOf(s);
    SysProc(s, p);
    ViewBelow(s, p);
  }

  /** Every step, under either fork, does to the answers of loads what the law says. */
  lemma StepLaw(s: Sys, op: Op, policy: Policy, s1: Sys, ret: int)
    requires SysInv(s) && SysWf(s) && !Starved(s, op) && Step(s, op, policy) == Next(s1, ret)
    ensures SysInv(s1) && SysWf(s1) && Law(s, op, s1, ret)
  {
    hide SysInv;
    hide View;
    hide Step;
    hide IdealStep;
    hide IdealRet;
    hide Reads;
    hide PReads;
    hide SameFor;
    StepRefines(s, op, policy, Next(s1, ret));
    StepSound(s, op, Next(s1, ret));
    EnabledAlike(s, op);
    match op
    case Load(_, _) => QuietLaw(s, op, s1, ret);
    case Fault(_, _) => QuietLaw(s, op, s1, ret);
    case Store(p, va, b) => StoreLaw(s, p, va, b, s1, ret);
    case Fork(p) => ForkLaw(s, p, policy, s1, ret);
    case Sbrk(p, n) => SbrkRet(s, p, n, policy); SbrkLaw(s, p, n, s1, ret);
    case Exit(p) => ExitLaw(s, p, s1, ret);
    case Wait(p, c) => WaitLaw(s, p, c, s1, ret);
  }

  lemma AllSame(s: Sys, s1: Sys)
    requires SysInv(s) && SysWf(s) && SysInv(s1) && SysWf(s1) && View(s1) == View(s)
    ensures SameForAll(s, s1)
  {
    hide SysInv;
    hide View;
    hide PReads;
    hide SameFor;
    forall q: nat ensures SameFor(s, s1, q) { ShownSame(s, s1, q); }
  }

  lemma QuietLaw(s: Sys, op: Op, s1: Sys, ret: int)
    requires SysInv(s) && SysWf(s) && SysInv(s1) && SysWf(s1) && (op.Load? || op.Fault?)
    requires View(s1) == IdealStep(View(s), op, ret)
    ensures Law(s, op, s1, ret)
  {
    hide SysInv;
    hide View;
    hide SameForAll;
    AllSame(s, s1);
  }

  lemma OthersSame(s: Sys, s1: Sys, p: nat)
    requires SysInv(s) && SysWf(s) && SysInv(s1) && SysWf(s1)
    requires forall q: nat | q != p :: (q in View(s1) <==> q in View(s)) && (q in View(s) ==> View(s1)[q].pages == View(s)[q].pages && View(s1)[q].zombie == View(s)[q].zombie)
    ensures SameForOthers(s, s1, p)
  {
    hide SysInv;
    hide View;
    hide SameFor;
    forall q: nat | q != p ensures SameFor(s, s1, q) { ShownSame(s, s1, q); }
  }

  lemma StoreLaw(s: Sys, p: nat, va: nat, b: Byte, s1: Sys, ret: int)
    requires SysInv(s) && SysWf(s) && SysInv(s1) && SysWf(s1) && View(s1) == IdealStep(View(s), Store(p, va, b), ret)
    requires ret == IdealRet(View(s), Store(p, va, b))
    ensures Law(s, Store(p, va, b), s1, ret)
  {
    hide SysInv;
    hide View;
    hide Reads;
    hide SameFor;
    ReadsBy(s, p, va);
    if ret == 0 {
      OthersSame(s, s1, p);
      forall x: nat ensures Reads(s1, p, x) == if x == va then b else Reads(s, p, x) {
        ReadsBy(s, p, x);
        ReadsBy(s1, p, x);
        StoreReads(View(s)[p], va, b, x);
      }
    } else {
      AllSame(s, s1);
    }
  }

  lemma ForkLaw(s: Sys, p: nat, policy: Policy, s1: Sys, ret: int)
    requires SysInv(s) && SysWf(s) && SysInv(s1) && SysWf(s1) && View(s1) == IdealStep(View(s), Fork(p), ret)
    requires Step(s, Fork(p), policy) == Next(s1, ret)
    ensures Law(s, Fork(p), s1, ret)
  {
    hide SysInv;
    hide View;
    hide Reads;
    hide SameFor;
    hide DoFork;
    hide PReads;
    hide SameForOthers;
    hide SameForAll;
    hide Refines;
    EnabledAlike(s, Fork(p));
    if ret < 0 || !Enabled(s, Fork(p)) {
      AllSame(s, s1);
    } else {
      ForkRefines(s, p, policy, Next(s1, ret));
      NewPid(s);
      OthersSame(s, s1, ret);
      forall x: nat ensures Reads(s, ret, x) == -1 && Reads(s1, ret, x) == Reads(s, p, x) {
        ReadsBy(s, ret, x);
        ReadsBy(s1, ret, x);
        ReadsBy(s, p, x);
        SamePages(View(s1)[ret], View(s)[p], x);
      }
    }
  }

  lemma NewPid(s: Sys)
    requires SysInv(s) && SysWf(s)
    ensures s.nextPid !in View(s)
  {
    hide VmInv;
    hide UserView;
  }

  lemma SamePages(p: IProc, q: IProc, x: nat)
    requires p.pages == q.pages && p.zombie == q.zombie
    ensures PReads(p, x) == PReads(q, x)
  {
  }

  lemma SbrkRet(s: Sys, p: nat, n: int, policy: Policy)
    requires SysWf(s) && Step(s, Sbrk(p, n), policy).Next?
    ensures Step(s, Sbrk(p, n), policy).ret == 0 || Step(s, Sbrk(p, n), policy).ret == -1
  {
    hide AllocUvm;
    hide DeallocUvm;
  }

  lemma SbrkLaw(s: Sys, p: nat, n: int, s1: Sys, ret: int)
    requires SysInv(s) && SysWf(s) && SysInv(s1) && SysWf(s1) && View(s1) == IdealStep(View(s), Sbrk(p, n), ret)
    requires ret == 0 || ret == -1
    ensures Law(s, Sbrk(p, n), s1, ret)
  {
    hide SysInv;
    hide View;
    hide Reads;
    hide SameFor;
    hide PReads;
    EnabledAlike(s, Sbrk(p, n));
    if !Live(s, p) || !IsInt(n) || n == 0 || (n > 0 && ret != 0) {
      AllSame(s, s1);
    } else {
      ShownBounds(s, p);
      OthersSame(s, s1, p);
      if n > 0 { GrowLaw(s, p, n, s1); } else { ShrinkLaw(s, p, n, s1, ret); }
    }
  }

  lemma GrowLaw(s: Sys, p: nat, n: nat, s1: Sys)
    requires SysInv(s) && SysWf(s) && SysInv(s1) && SysWf(s1) && View(s1) == IdealStep(View(s), Sbrk(p, n), 0)
    requires n > 0 && IEnabled(View(s), Sbrk(p, n)) && Live(s, p)
    ensures forall x: nat :: Reads(s1, p, x) == if End(s.procs[p].sz) <= x < End(s.procs[p].sz + n) then 0 else Reads(s, p, x)
  {
    hide SysInv;
    hide View;
    hide Reads;
    hide PReads;
    ViewOf(s1);
    ShownBounds(s, p);
    ShownBounds(s1, p);
    forall x: nat ensures Reads(s1, p, x) == if End(s.procs[p].sz) <= x < End(s.procs[p].sz + n) then 0 else Reads(s, p, x) {
      ReadsBy(s, p, x);
      ReadsBy(s1, p, x);
      GrowReads(View(s)[p], n, x);
    }
  }

  lemma ShrinkLaw(s: Sys, p: nat, n: int, s1: Sys, ret: int)
    requires SysInv(s) && SysWf(s) && SysInv(s1) && SysWf(s1) && View(s1) == IdealStep(View(s), Sbrk(p, n), ret)
    requires n < 0 && IEnabled(View(s), Sbrk(p, n)) && Live(s, p)
    ensures var newsz := (s.procs[p].sz + n) % 0x1_0000_0000;
      forall x: nat :: Reads(s1, p, x) == if newsz < s.procs[p].sz && End(newsz) <= x then -1 else Reads(s, p, x)
  {
    hide SysInv;
    hide View;
    hide Reads;
    hide PReads;
    ShownBounds(s, p);
    var m := View(s)[p];
    var newsz := (m.sz + n) % UINT;
    forall x: nat ensures Reads(s1, p, x) == if newsz < m.sz && End(newsz) <= x then -1 else Reads(s, p, x) {
      ReadsBy(s, p, x);
      ReadsBy(s1, p, x);
      if newsz < m.sz { DropReads(m, newsz, if newsz == 0 then m.sz else newsz, x); }
    }
  }

  lemma ExitLaw(s: Sys, p: nat, s1: Sys, ret: int)
    requires SysInv(s) && SysWf(s) && SysInv(s1) && SysWf(s1) && View(s1) == IdealStep(View(s), Exit(p), ret)
    requires ret == IdealRet(View(s), Exit(p))
    ensures Law(s, Exit(p), s1, ret)
  {
    hide SysInv;
    hide View;
    hide Reads;
    hide SameFor;
    if ret != 0 {
      AllSame(s, s1);
    } else {
      OthersSame(s, s1, p);
      forall x: nat ensures Reads(s1, p, x) == -1 { ReadsBy(s1, p, x); }
    }
  }

  lemma WaitLaw(s: Sys, p: nat, c: nat, s1: Sys, ret: int)
    requires SysInv(s) && SysWf(s) && SysInv(s1) && SysWf(s1) && View(s1) == IdealStep(View(s), Wait(p, c), ret)
    requires ret == IdealRet(View(s), Wait(p, c))
    ensures Law(s, Wait(p, c), s1, ret)
  {
    hide SysInv;
    hide View;
    hide Reads;
    hide SameFor;
    if ret < 0 {
      AllSame(s, s1);
    } else {
      OthersSame(s, s1, c);
      forall x: nat ensures Reads(s1, c, x) == -1 { ReadsBy(s1, c, x); }
    }
  }

  // ---------------------------------------------------------------- every run

  /** In every run, under either fork, the answers of loads and the process table change as the laws
      say, and so do the steps answer. */
  lemma RunLaw(ss: seq<Sys>, ops: seq<Op>, rets: seq<int>, policy: Policy, i: nat)
    requires IsRun(ss, ops, rets, policy) && SysInv(ss[0]) && i < |ops|
    ensures SysWf(ss[i]) && SysWf(ss[i + 1]) && Law(ss[i], ops[i], ss[i + 1], rets[i]) && TableLaw(ss[i], ops[i], ss[i + 1], rets[i])
    ensures Answers(ss[i], ops[i], rets[i])
  {
    hide SysInv;
    hide Law;
    hide TableLaw;
    hide Answers;
    hide Step;
    hide Starved;
    RunInvariant(ss, ops, rets, policy, i);
    StepLaw(ss[i], ops[i], policy, ss[i + 1], rets[i]);
    StepTable(ss[i], ops[i], policy, ss[i + 1], rets[i]);
    StepAnswers(ss[i], ops[i], policy, ss[i + 1], rets[i]);
  }

  // growproc answers 0 only to a live process.
  lemma SbrkZeroMeans(s: Sys, op: Op, policy: Policy)
    requires SysWf(s) && op.Sbrk? && Step(s, op, policy).Next? && Step(s, op, policy).ret == 0
    ensures Live(s, op.pid) && IsInt(op.n)
  {
    hide DoSbrk;
  }

  /** In every run a load from a page that the step before has grown answers 0. */
  lemma GrownPageIsZero(ss: seq<Sys>, ops: seq<Op>, rets: seq<int>, policy: Policy, i: nat, va: nat)
    requires IsRun(ss, ops, rets, policy) && SysInv(ss[0]) && i < |ops|
    requires ops[i].Sbrk? && ops[i].n > 0 && rets[i] == 0
    requires ops[i].pid in ss[i].procs && End(ss[i].procs[ops[i].pid].sz) <= va < End(ss[i].procs[ops[i].pid].sz + ops[i].n)
    ensures SysWf(ss[i + 1]) && Step(ss[i + 1], Load(ops[i].pid, va), policy) == Next(ss[i + 1], 0)
  {
    hide SysInv;
    hide Starved;
    hide Step;
    hide Refines;
    hide Reads;
    hide SameForOthers;
    RunInvariant(ss, ops, rets, policy, i + 1);
    StepSound(ss[i], ops[i], Next(ss[i + 1], rets[i]));
    SbrkZeroMeans(ss[i], ops[i], policy);
    RunLaw(ss, ops, rets, policy, i);
    ReadsIs(ss[i + 1], ops[i].pid, va);
  }

  /** The first process of a booted machine reads its init code and then zeros, in one page. */
  lemma BootReads(lo: nat, mem: seq<Page>, dataPage: nat, image: seq<Byte>, x: nat)
    requires 0 < lo <= NFRAMES && |mem| == NFRAMES && KmapsOk(dataPage) && |image| < PGSIZE
    requires Boot(lo, mem, dataPage, image).Up?
    ensures var s := Boot(lo, mem, dataPage, image).s;
      SysWf(s) && Reads(s, INITPID, x) == if x < |image| then image[x] else if x < 4096 then 0 else -1
  {
    hide SysInv;
    hide View;
    hide Boot;
    hide Whole;
    BootInv(lo, mem, dataPage, image);
    ReadsBy(Boot(lo, mem, dataPage, image).s, INITPID, x);
  }

  // ---------------------------------------------------------------- sizes, parents, zombies

  /** The size of process q, its parent, and whether it is a zombie. */
  function Info(s: Sys, q: nat): Option<(int, int, bool)> {
    if q in s.procs then Some((s.procs[q].sz, s.procs[q].parent, s.procs[q].zombie)) else None
  }

  ghost predicate SameInfo(s: Sys, s1: Sys, except: set<nat>) { forall q: nat | q !in except :: Info(s1, q) == Info(s, q) }

  /** What the step does to the process table. */
  ghost predicate TableLaw(s: Sys, op: Op, s1: Sys, ret: int) {
    match op
    case Load(_, _) => SameInfo(s, s1, {})
    case Fault(_, _) => SameInfo(s, s1, {})
    case Store(_, _, _) => SameInfo(s, s1, {})
    case Fork(p) =>
      if ret < 0 then SameInfo(s, s1, {})
      else
        && SameInfo(s, s1, {ret}) && Info(s, ret).None? && Info(s, p).Some?
        && Info(s1, ret) == Some((Info(s, p).value.0, p, false))
    case Sbrk(p, n) =>
      if ret != 0 then SameInfo(s, s1, {})
      else
        && SameInfo(s, s1, {p}) && Info(s, p).Some?
        && var (sz, parent, zombie) := Info(s, p).value;
           !zombie && Info(s1, p) == Some((if sz + n < 0 then sz else sz + n, parent, false))
    case Exit(p) =>
      if ret != 0 then SameInfo(s, s1, {})
      else
        && Live(s, p)
        && forall q: nat :: Info(s1, q) ==
             (match Info(s, q)
              case None => None
              case Some((sz, parent, zombie)) => Some((sz, if q != p && parent == p then 1 else parent, q == p || zombie)))
    case Wait(p, c) =>
      if ret < 0 then SameInfo(s, s1, {})
      else
        && ret == c && SameInfo(s, s1, {c}) && Info(s1, c).None?
        && Info(s, c).Some? && Info(s, c).value.1 == p && Info(s, c).value.2
  }

  ghost function IInfo(m: Ideal, q: nat): Option<(int, int, bool)> {
    if q in m then Some((m[q].sz, m[q].parent, m[q].zombie)) else None
  }

  lemma InfoIs(s: Sys)
    requires SysWf(s)
    ensures forall q: nat :: Info(s, q) == IInfo(View(s), q)
  {
    hide View;
    ViewOf(s);
  }

  /** Every step, under either fork, does to the process table what the law says. */
  lemma StepTable(s: Sys, op: Op, policy: Policy, s1: Sys, ret: int)
    requires SysInv(s) && SysWf(s) && !Starved(s, op) && Step(s, op, policy) == Next(s1, ret)
    ensures SysInv(s1) && SysWf(s1) && TableLaw(s, op, s1, ret)
  {
    hide SysInv;
    hide View;
    hide Step;
    hide Info;
    hide IInfo;
    hide IdealStep;
    hide IdealRet;
    hide SameInfo;
    StepRefines(s, op, policy, Next(s1, ret));
    StepSound(s, op, Next(s1, ret));
    EnabledAlike(s, op);
    InfoIs(s);
    InfoIs(s1);
    match op
    case Load(_, _) => QuietTable(s, op, s1, ret);
    case Fault(_, _) => QuietTable(s, op, s1, ret);
    case Store(_, _, _) => QuietTable(s, op, s1, ret);
    case Fork(p) => ForkTable(s, p, policy, s1, ret);
    case Sbrk(p, n) => SbrkTable(s, p, n, policy, s1, ret);
    case Exit(p) => ExitTable(s, p, s1, ret);
    case Wait(p, c) => WaitTable(s, p, c, s1, ret);
  }

  lemma QuietTable(s: Sys, op: Op, s1: Sys, ret: int)
    requires SysWf(s) && SysWf(s1) && View(s1) == IdealStep(View(s), op, ret) && (op.Load? || op.Fault? || op.Store?)
    ensures TableLaw(s, op, s1, ret)
  {
    hide View;
    hide Info;
    InfoIs(s);
    InfoIs(s1);
  }

  lemma ForkTable(s: Sys, p: nat, policy: Policy, s1: Sys, ret: int)
    requires SysInv(s) && SysWf(s) && SysWf(s1) && View(s1) == IdealStep(View(s), Fork(p), ret) && Step(s, Fork(p), policy) == Next(s1, ret)
    ensures TableLaw(s, Fork(p), s1, ret)
  {
    hide SysInv;
    hide View;
    hide Info;
    hide DoFork;
    hide Refines;
    InfoIs(s);
    InfoIs(s1);
    EnabledAlike(s, Fork(p));
    NewPid(s);
    if Enabled(s, Fork(p)) { ForkRefines(s, p, policy, Next(s1, ret)); }
  }

  lemma SbrkTable(s: Sys, p: nat, n: int, policy: Policy, s1: Sys, ret: int)
    requires SysInv(s) && SysWf(s) && SysWf(s1) && View(s1) == IdealStep(View(s), Sbrk(p, n), ret) && Step(s, Sbrk(p, n), policy) == Next(s1, ret)
    requires n <= 0 ==> ret == IdealRet(View(s), Sbrk(p, n))
    ensures TableLaw(s, Sbrk(p, n), s1, ret)
  {
    hide SysInv;
    hide View;
    hide Info;
    hide Step;
    hide GrowView;
    hide DropView;
    InfoIs(s);
    InfoIs(s1);
    EnabledAlike(s, Sbrk(p, n));
    SbrkRet(s, p, n, policy);
    if ret == 0 { SbrkZeroMeans(s, Sbrk(p, n), policy); ShownBounds(s, p); }
  }

  lemma ExitTable(s: Sys, p: nat, s1: Sys, ret: int)
    requires SysWf(s) && SysWf(s1) && View(s1) == IdealStep(View(s), Exit(p), ret) && ret == IdealRet(View(s), Exit(p))
    ensures TableLaw(s, Exit(p), s1, ret)
  {
    hide View;
    hide Info;
    InfoIs(s);
    InfoIs(s1);
    EnabledAlike(s, Exit(p));
  }

  lemma WaitTable(s: Sys, p: nat, c: nat, s1: Sys, ret: int)
    requires SysWf(s) && SysWf(s1) && View(s1) == IdealStep(View(s), Wait(p, c), ret) && ret == IdealRet(View(s), Wait(p, c))
    ensures TableLaw(s, Wait(p, c), s1, ret)
  {
    hide View;
    hide Info;
    InfoIs(s);
    InfoIs(s1);
    EnabledAlike(s, Wait(p, c));
  }

  // ---------------------------------------------------------------- answers

  /** What the answers of the steps mean that do not depend on free memory. */
  ghost predicate Answers(s: Sys, op: Op, ret: int) {
    match op
    case Load(_, _) => -1 <= ret < 256
    case Fault(p, va) => ret == if Live(s, p) && va < 0xA_0000 then 0 else -1
    case Store(_, _, _) => ret == 0 || ret == -1
    case Fork(_) => true
    case Sbrk(p, n) =>
      n <= 0 ==>
        var ok := Live(s, p) && n >= -0x8000_0000
          && (n == 0 || if s.procs[p].sz + n >= 0 then s.procs[p].sz + n > 0 else s.procs[p].sz > 0);
        ret == if ok then 0 else -1
    case Exit(p) => ret == if Live(s, p) && p != 1 then 0 else -1
    case Wait(p, c) => ret == if Live(s, p) && c in s.procs && c != p && s.procs[c].zombie && s.procs[c].parent == p then c else -1
  }

  lemma StepAnswers(s: Sys, op: Op, policy: Policy, s1: Sys, ret: int)
    requires SysInv(s) && SysWf(s) && !Starved(s, op) && Step(s, op, policy) == Next(s1, ret)
    ensures Answers(s, op, ret)
  {
    hide SysInv;
    hide View;
    hide Step;
    hide IdealStep;
    hide IdealRet;
    hide Answers;
    hide Starved;
    StepRefines(s, op, policy, Next(s1, ret));
    if op.Load? { LoadAnswers(s, op, policy); } else if !op.Fork? && !(op.Sbrk? && op.n > 0) { IdealAnswers(s, op); } else { NoAnswer(s, op, ret); }
  }

  lemma LoadAnswers(s: Sys, op: Op, policy: Policy)
    requires SysWf(s) && op.Load? && Step(s, op, policy).Next?
    ensures Answers(s, op, Step(s, op, policy).ret)
  {
  }

  lemma NoAnswer(s: Sys, op: Op, ret: int)
    requires op.Fork? || (op.Sbrk? && op.n > 0)
    ensures Answers(s, op, ret)
  {
  }

  lemma IdealAnswers(s: Sys, op: Op)
    requires SysInv(s) && SysWf(s) && !MemoryOp(op) && !op.Load?
    ensures Answers(s, op, IdealRet(View(s), op))
  {
    hide SysInv;
    hide View;
    hide Enabled;
    EnabledAlike(s, op);
    ViewOf(s);
    if op.Sbrk? && Live(s, op.pid) { ShownBounds(s, op.pid); }
  }

  // ---------------------------------------------------------------- when fork succeeds

  /** Growing succeeds exactly if the new size fits below 0xA0000 and there is a free frame for each
      page to be added. */
  lemma GrowExact(s: Sys, p: nat, n: int, policy: Policy)
    requires SysInv(s) && SysWf(s) && Live(s, p) && 0 < n <= 0x7fff_ffff
    ensures var r, sz := Step(s, Sbrk(p, n), policy), s.procs[p].sz;
      r.Next? && (r.ret == 0 <==> sz + n <= 0xA_0000 && s.vm.km.freePages >= (sz + n + 4095) / 4096 - (sz + 4095) / 4096)
  {
    hide SysInv;
    hide VmInv;
    hide AllocFrom;
    hide UserView;
    hide GrowView;
    hide FreeSet;
    hide WithinSize;
    SysFacts(s);
    ProcFacts(s.vm, s.procs, p);
    var d, sz := s.procs[p].dir, s.procs[p].sz;
    if sz + n <= USERTOP {
      OutOfMemoryRestores(s.vm, Stacked(s.kstacks), d, sz, sz + n, AllocUvm(s.vm, d, sz, sz + n));
    }
  }

  // The pages of a process without missing ones are in frames.
  lemma PagesBacked(vm: Vm, ext: Holds, d: nat, hi: nat)
    requires VmInv(vm, ext) && d in vm.dirs && hi <= USERPAGES && Present(vm, d, 0, hi)
    ensures Backed(vm, d, 0, hi)
  {
    hide VmInv;
    forall x | 0 <= x < hi ensures x in vm.dirs[d].ptes && vm.dirs[d].ptes[x].frame < NFRAMES { UserPteOk(vm, ext, d, x); }
  }

  lemma DupExact(vm: Vm, ext: Holds, src: nat, sz: nat, policy: Policy, r: DirOutcome)
    requires VmInv(vm, ext) && vm.Wf() && KmapsOk(vm.dataPage) && src in vm.dirs && sz <= USERTOP && Present(vm, src, 0, PageRoundUp(sz))
    requires r == DupUvm(vm, src, sz, policy)
    ensures r.NewDir? <==> |vm.km.freelist| >= 13 + if policy.Eager? then PageRoundUp(sz) else 0
  {
    hide VmInv;
    hide SetupKvm;
    hide CopyFrom;
    hide CowFrom;
    hide Keeps;
    hide Present;
    hide Backed;
    var made := SetupKvm(vm);
    SetupFrames(vm, ext);
    SetupKvmKeeps(vm, ext, made);
    if made.NewDir? {
      SamePresent(vm, made.vm, src, PageRoundUp(sz));
      if policy.Eager? {
        PagesBacked(made.vm, ext, src, PageRoundUp(sz));
        CopyTook(made.vm, src, made.dir, 0, sz, r);
      } else {
        CowKeeps(made.vm, ext, src, made.dir, 0, sz, r);
      }
    }
  }

  /** A fork of a process without missing pages succeeds exactly if there are fewer than 64 processes
      and enough free frames: 14 for the child's stack and directory, and one a page if it copies. */
  lemma ForkExact(s: Sys, p: nat, policy: Policy)
    requires SysInv(s) && SysWf(s) && Live(s, p) && !Missing(s, p)
    ensures var r := Step(s, Fork(p), policy);
      r.Next? && (r.ret >= 0 <==> |s.procs| < 64 && |s.vm.km.freelist| >= 14 + if policy.Eager? then (s.procs[p].sz + 4095) / 4096 else 0)
  {
    hide SysInv;
    hide VmInv;
    hide DupUvm;
    hide ProcsOk;
    hide Present;
    hide Refines;
    hide ForkFinish;
    var r := Step(s, Fork(p), policy);
    ForkRefines(s, p, policy, r);
    SysFacts(s);
    SysProc(s, p);
    if |s.procs| < NPROC && Alloc(s.vm.km).Allocated? {
      var stack, vm0 := Alloc(s.vm.km).frame, s.vm.(km := Alloc(s.vm.km).km);
      ForkStack(s, stack, vm0);
      var ext1 := Stacked(s.kstacks)[KStack(s.nextPid) := stack];
      var src, sz := s.procs[p].dir, s.procs[p].sz;
      SamePresent(s.vm, vm0, src, PageRoundUp(sz));
      var dup := DupUvm(vm0, src, sz, policy);
      DupExact(vm0, ext1, src, sz, policy, dup);
      ForkRet(s, p, stack, dup);
    }
  }

  lemma ForkRet(s: Sys, p: nat, stack: nat, dup: DirOutcome)
    requires p in s.procs && (!dup.DirPanic? ==> dup.vm.Wf()) && ForkFinish(s, p, stack, dup).Next?
    ensures ForkFinish(s, p, stack, dup).ret >= 0 <==> dup.NewDir?
  {
  }
}
