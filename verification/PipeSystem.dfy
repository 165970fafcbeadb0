/** Readers, writers and closers of one pipe over the locks and the sleep and wakeup of
    P5_XV6_CoW_Fork/kernel/proc.c, interleaved at every point where another thread could act:
    taking and releasing the pipe's lock and the process table's lock, and going to sleep. */
module PipeSystem {
  import opened PipeBuffer
  import opened Wrappers

  datatype Role = Reader(n: nat) | Writer(bytes: seq<char>) | Closer(writable: bool)

  // What follows a wakeup: the writer goes to sleep, or the call returns r.
  datatype Then = Sleeps | Leaves(r: int)

  datatype Pc =
    | Want                  // about to acquire the pipe's lock
    | Body                  // has it; at the loop test
    | Wake(next: Then)      // has it; wakeup is about to acquire the table's lock
    | Waking(next: Then)    // has both
    | Nap                   // has the pipe's lock; sleep is about to acquire the table's lock
    | Napping               // has both
    | Dozing                // has the table's lock only, not SLEEPING yet
    | Asleep                // SLEEPING
    | Leaving(r: int)       // has the pipe's lock; about to release it and return
    | Returned(r: int)

  // i: how many bytes the writer has stored.
  datatype Thread = Thread(role: Role, i: nat, killed: bool, pc: Pc)

  /** sent and recv: all bytes accepted and all bytes returned so far, in order. */
  datatype Sys = Sys(
    pipe: Pipe, threads: map<nat, Thread>, lock: Option<nat>, tableLock: Option<nat>, freed: bool,
    sent: seq<char>, recv: seq<char>)

  predicate HasLock(pc: Pc) { pc.Body? || pc.Wake? || pc.Waking? || pc.Nap? || pc.Napping? || pc.Leaving? }

  predicate HasTableLock(pc: Pc) { pc.Waking? || pc.Napping? || pc.Dozing? }

  // The thread wakes those who sleep on nread; the others wake those who sleep on nwrite.
  predicate WakesReaders(role: Role) { role.Writer? || (role.Closer? && role.writable) }

  /** wakeup1: everybody who sleeps on the channel is RUNNABLE, and will want the lock again. */
  function Woken(threads: map<nat, Thread>, readers: bool): map<nat, Thread>
  {
    map t | t in threads ::
      if threads[t].pc.Asleep? && threads[t].role.Reader? == readers then threads[t].(pc := Want) else threads[t]
  }

  function At(s: Sys, t: nat, pc: Pc): Sys
    requires t in s.threads
  {
    s.(threads := s.threads[t := s.threads[t].(pc := pc)])
  }

  /** The lock-held loops. */
  function BodyStep(s: Sys, t: nat): Sys
    requires t in s.threads && Wf(s.pipe) && (s.threads[t].role.Writer? ==> s.threads[t].i <= |s.threads[t].role.bytes|)
  {
    var th := s.threads[t];
    match th.role
    case Reader(n) =>
      if Empty(s.pipe) && s.pipe.writeopen then At(s, t, if th.killed then Leaving(-1) else Nap)
      else
        var (p1, got) := ReadLoop(s.pipe, n);
        At(s, t, Wake(Leaves(|got|))).(pipe := p1, recv := s.recv + got)
    case Writer(bytes) =>
      var (p1, k) := WriteLoop(s.pipe, bytes[th.i..]);
      var pc :=
        if th.i + k == |bytes| then Wake(Leaves(|bytes|))
        else if !p1.readopen || th.killed then Leaving(-1)
        else Wake(Sleeps);
      s.(pipe := p1, sent := s.sent + bytes[th.i..th.i + k], threads := s.threads[t := th.(i := th.i + k, pc := pc)])
    case Closer(writable) =>
      At(s, t, Wake(Leaves(0))).(pipe := if writable then s.pipe.(writeopen := false) else s.pipe.(readopen := false))
  }

  predicate ThreadOk(th: Thread) { th.role.Writer? ==> th.i <= |th.role.bytes| }

  /** Thread t's next step; None while it must wait. */
  function RunStep(s: Sys, t: nat): Option<Sys>
    requires t in s.threads && Wf(s.pipe) && ThreadOk(s.threads[t])
  {
    var th := s.threads[t];
    match th.pc
    case Want => if s.lock.Some? then None else Some(At(s, t, Body).(lock := Some(t)))
    case Body => Some(BodyStep(s, t))
    case Wake(next) => if s.tableLock.Some? then None else Some(At(s, t, Waking(next)).(tableLock := Some(t)))
    case Waking(next) =>
      var s1 := s.(threads := Woken(s.threads, WakesReaders(th.role)), tableLock := None);
      Some(At(s1, t, if next.Sleeps? then Nap else Leaving(next.r)))
    case Nap => if s.tableLock.Some? then None else Some(At(s, t, Napping).(tableLock := Some(t)))
    case Napping => Some(At(s, t, Dozing).(lock := None))
    case Dozing => Some(At(s, t, Asleep).(tableLock := None))
    case Asleep => None
    case Leaving(r) =>
      Some(At(s, t, Returned(r)).(lock := None,
        freed := s.freed || (th.role.Closer? && !s.pipe.readopen && !s.pipe.writeopen)))
    case Returned(_) => None
  }

  // The end a role uses, or closes.
  predicate WriteEnd(role: Role) { role.Writer? || (role.Closer? && role.writable) }

  /** A call starts while its end is open.  pipeclose is called for an end once, when its last
      reference goes, so with no call on that end in progress and none to come. */
  predicate MayStart(s: Sys, role: Role) {
    && (forall t | t in s.threads && s.threads[t].role.Closer? :: s.threads[t].role.writable != WriteEnd(role))
    && (role.Closer? ==>
          forall t | t in s.threads && !s.threads[t].role.Closer? && WriteEnd(s.threads[t].role) == role.writable ::
            s.threads[t].pc.Returned?)
  }

  datatype Action = Start(t: nat, role: Role) | Run(t: nat) | Kill(t: nat)

  function Step(s: Sys, a: Action): Option<Sys>
    requires Wf(s.pipe) && forall t | t in s.threads :: ThreadOk(s.threads[t])
  {
    match a
    case Start(t, role) =>
      if t in s.threads || !MayStart(s, role) then None
      else Some(s.(threads := s.threads[t := Thread(role, 0, false, Want)]))
    case Run(t) => if t !in s.threads then None else RunStep(s, t)
    case Kill(t) =>
      if t !in s.threads || s.tableLock.Some? then None
      else
        var th := s.threads[t].(killed := true);
        Some(s.(threads := s.threads[t := if th.pc.Asleep? then th.(pc := Want) else th]))
  }

  predicate Initial(s: Sys) {
    && Wf(s.pipe) && s.pipe.nread == 0 && s.pipe.nwrite == 0 && s.pipe.readopen && s.pipe.writeopen
    && s.threads == map[] && s.lock.None? && s.tableLock.None? && !s.freed && s.sent == [] && s.recv == []
  }

  // ---------------------------------------------------------------- locks, ends and bytes

  ghost predicate LocksOk(s: Sys) {
    && (forall t | t in s.threads :: HasLock(s.threads[t].pc) <==> s.lock == Some(t))
    && (forall t | t in s.threads :: HasTableLock(s.threads[t].pc) <==> s.tableLock == Some(t))
    && (s.lock.Some? ==> s.lock.value in s.threads) && (s.tableLock.Some? ==> s.tableLock.value in s.threads)
  }

  ghost predicate RoleOk(th: Thread) {
    && ThreadOk(th)
    && (th.role.Closer? ==> th.pc.Want? || th.pc.Body? || th.pc == Wake(Leaves(0)) || th.pc == Waking(Leaves(0)) || th.pc.Leaving? || th.pc.Returned?)
    && ((th.pc.Wake? || th.pc.Waking?) && th.pc.next.Sleeps? ==> th.role.Writer?)
  }

  predicate Closed(th: Thread, writable: bool) { th.role == Closer(writable) && !th.pc.Want? && !th.pc.Body? }

  // Somebody has closed that end.
  ghost predicate HasCloser(s: Sys, writable: bool) {
    exists t :: t in s.threads && Closed(s.threads[t], writable)
  }

  // A closer of an end excludes every other call on it.
  ghost predicate Apart(s: Sys, t: nat, u: nat)
    requires t in s.threads && u in s.threads
  {
    t != u && s.threads[t].role.Closer? && s.threads[t].role.writable == WriteEnd(s.threads[u].role) ==>
      s.threads[u].pc.Returned? && !s.threads[u].role.Closer?
  }

  ghost predicate EndsOk(s: Sys) {
    && (!s.pipe.writeopen ==> HasCloser(s, true))
    && (!s.pipe.readopen ==> HasCloser(s, false))
    && (forall t, u | t in s.threads && u in s.threads :: Apart(s, t, u))
  }

  /** The pipe's page is freed exactly when both ends are closed and the last closer is out. */
  ghost predicate FreeOk(s: Sys) { s.freed <==> !s.pipe.readopen && !s.pipe.writeopen && s.lock.None? }

  ghost predicate BaseInv(s: Sys) {
    && Wf(s.pipe) && Holds(s.pipe, s.sent, s.recv) && LocksOk(s) && EndsOk(s) && FreeOk(s)
    && forall t | t in s.threads :: RoleOk(s.threads[t])
  }

  lemma InitialInv(s: Sys)
    requires Initial(s)
    ensures BaseInv(s)
  {
  }

  // Once an end is closed, calls on it are over.
  lemma EndOver(s: Sys, t: nat)
    requires EndsOk(s) && t in s.threads && !s.threads[t].role.Closer?
    requires if WriteEnd(s.threads[t].role) then !s.pipe.writeopen else !s.pipe.readopen
    ensures s.threads[t].pc.Returned?
  {
    var u :| u in s.threads && Closed(s.threads[u], WriteEnd(s.threads[t].role));
    assert Apart(s, u, t);
  }

  lemma StartLocks(s: Sys, t: nat, role: Role)
    requires LocksOk(s) && t !in s.threads
    ensures LocksOk(s.(threads := s.threads[t := Thread(role, 0, false, Want)]))
  {
  }

  lemma StartInv(s: Sys, t: nat, role: Role)
    requires BaseInv(s) && Step(s, Start(t, role)).Some?
    ensures BaseInv(Step(s, Start(t, role)).value)
  {
    hide Holds;
    hide LocksOk;
    var s1 := Step(s, Start(t, role)).value;
    StartLocks(s, t, role);
    forall u, v | u in s1.threads && v in s1.threads ensures Apart(s1, u, v) {
      if u in s.threads && v in s.threads { assert Apart(s, u, v); }
    }
    if HasCloser(s, true) { var u :| u in s.threads && Closed(s.threads[u], true); assert Closed(s1.threads[u], true); }
    if HasCloser(s, false) { var u :| u in s.threads && Closed(s.threads[u], false); assert Closed(s1.threads[u], false); }
  }

  // The same threads in the same roles, none back from its return.
  ghost predicate SameRoles(s: Sys, s1: Sys) {
    && s1.threads.Keys == s.threads.Keys
    && forall t | t in s.threads :: s1.threads[t].role == s.threads[t].role && (s.threads[t].pc.Returned? ==> s1.threads[t].pc.Returned?)
         && forall w | Closed(s.threads[t], w) :: Closed(s1.threads[t], w)
  }

  lemma EndsKept(s: Sys, s1: Sys)
    requires EndsOk(s) && SameRoles(s, s1)
    requires !s1.pipe.writeopen ==> !s.pipe.writeopen || HasCloser(s1, true)
    requires !s1.pipe.readopen ==> !s.pipe.readopen || HasCloser(s1, false)
    ensures EndsOk(s1)
  {
    forall u, v | u in s1.threads && v in s1.threads ensures Apart(s1, u, v) { assert Apart(s, u, v); }
    if HasCloser(s, true) { var u :| u in s.threads && Closed(s.threads[u], true); assert Closed(s1.threads[u], true); }
    if HasCloser(s, false) { var u :| u in s.threads && Closed(s.threads[u], false); assert Closed(s1.threads[u], false); }
  }

  lemma KillInv(s: Sys, t: nat)
    requires BaseInv(s) && Step(s, Kill(t)).Some?
    ensures BaseInv(Step(s, Kill(t)).value)
  {
    hide Holds;
    hide EndsOk;
    EndsKept(s, Step(s, Kill(t)).value);
  }

  // What a body step leaves alone, and how far its own thread gets.
  lemma BodyShape(s: Sys, t: nat)
    requires Wf(s.pipe) && t in s.threads && RoleOk(s.threads[t]) && s.threads[t].pc.Body?
    ensures var s1, th := BodyStep(s, t), s.threads[t];
      && s1.lock == s.lock && s1.tableLock == s.tableLock && s1.freed == s.freed && t in s1.threads
      && s1.threads == s.threads[t := s1.threads[t]] && s1.threads[t].role == th.role && s1.threads[t].killed == th.killed
      && RoleOk(s1.threads[t])
      && (s1.threads[t].pc.Wake? || s1.threads[t].pc.Nap? || s1.threads[t].pc.Leaving?)
  {
  }

  lemma BodyEnds(s: Sys, t: nat)
    requires BaseInv(s) && t in s.threads && s.threads[t].pc.Body?
    ensures EndsOk(BodyStep(s, t)) && LocksOk(BodyStep(s, t)) && FreeOk(BodyStep(s, t))
    ensures forall u | u in BodyStep(s, t).threads :: RoleOk(BodyStep(s, t).threads[u])
  {
    hide EndsOk;
    hide Holds;
    hide BodyStep;
    assert ThreadOk(s.threads[t]);
    BodyShape(s, t);
    BodyFlags(s, t);
    EndsKept(s, BodyStep(s, t));
  }

  lemma BodyFlags(s: Sys, t: nat)
    requires Wf(s.pipe) && t in s.threads && RoleOk(s.threads[t]) && s.threads[t].pc.Body?
    ensures var s1 := BodyStep(s, t);
      && (!s1.pipe.writeopen ==> !s.pipe.writeopen || HasCloser(s1, true))
      && (!s1.pipe.readopen ==> !s.pipe.readopen || HasCloser(s1, false))
  {
    hide ReadLoop;
    hide WriteLoop;
    var s1, th := BodyStep(s, t), s.threads[t];
    match th.role {
      case Reader(n) => ReadLoopFlags(s.pipe, n);
      case Writer(bytes) => WriteLoopFlags(s.pipe, bytes[th.i..]);
      case Closer(writable) => assert Closed(s1.threads[t], writable);
    }
  }

  lemma {:induction false} ReadLoopFlags(p: Pipe, n: nat)
    requires Wf(p)
    ensures ReadLoop(p, n).0.readopen == p.readopen && ReadLoop(p, n).0.writeopen == p.writeopen
    decreases n
  {
    if n > 0 && !Empty(p) { ReadLoopFlags(p.(nread := Add(p.nread, 1)), n - 1); }
  }

  lemma {:induction false} WriteLoopFlags(p: Pipe, bytes: seq<char>)
    requires Wf(p)
    ensures WriteLoop(p, bytes).0.readopen == p.readopen && WriteLoop(p, bytes).0.writeopen == p.writeopen
    decreases |bytes|
  {
    if bytes != [] && !Full(p) {
      WriteLoopFlags(p.(data := p.data[p.nwrite % PIPESIZE := bytes[0]], nwrite := Add(p.nwrite, 1)), bytes[1..]);
    }
  }

  /** The lock-held loops keep the pipe a FIFO. */
  lemma BodyHolds(s: Sys, t: nat)
    requires BaseInv(s) && t in s.threads && s.threads[t].pc.Body?
    ensures var s1 := BodyStep(s, t); Wf(s1.pipe) && Holds(s1.pipe, s1.sent, s1.recv)
  {
    hide EndsOk;
    hide LocksOk;
    hide Holds;
    hide ReadLoop;
    hide WriteLoop;
    var s1, th := BodyStep(s, t), s.threads[t];
    match th.role {
      case Reader(n) => ReadLoopTakes(s.pipe, n, s.sent, s.recv);
      case Writer(bytes) =>
        WriteLoopPuts(s.pipe, bytes[th.i..], s.sent, s.recv);
        var k := WriteLoop(s.pipe, bytes[th.i..]).1;
        assert bytes[th.i..][..k] == bytes[th.i..th.i + k];
      case Closer(writable) => CloseHolds(s.pipe, s1.pipe, s.sent, s.recv);
    }
  }

  lemma BodyInv(s: Sys, t: nat)
    requires BaseInv(s) && t in s.threads && s.threads[t].pc.Body?
    ensures BaseInv(BodyStep(s, t))
  {
    hide BodyStep;
    hide EndsOk;
    hide LocksOk;
    hide FreeOk;
    hide Holds;
    BodyHolds(s, t);
    BodyEnds(s, t);
  }

  lemma CloseHolds(p: Pipe, p1: Pipe, sent: seq<char>, recv: seq<char>)
    requires Holds(p, sent, recv) && p1.data == p.data && p1.nread == p.nread && p1.nwrite == p.nwrite
    ensures Holds(p1, sent, recv)
  {
  }

  // A thread moves between two places in a call, and maybe takes or drops a lock.
  ghost predicate Moves(s: Sys, s1: Sys, t: nat) {
    && t in s.threads && t in s1.threads && s1 == s.(threads := s.threads[t := s1.threads[t]], lock := s1.lock, tableLock := s1.tableLock)
    && s1.threads[t].role == s.threads[t].role && s1.threads[t].i == s.threads[t].i
    && RoleOk(s1.threads[t]) && !s.threads[t].pc.Returned?
    && (forall w | Closed(s.threads[t], w) :: Closed(s1.threads[t], w))
    && (s1.lock == s.lock || (s.lock.None? && s1.lock == Some(t)) || (s.lock == Some(t) && s1.lock.None?))
    && (s1.tableLock == s.tableLock || (s.tableLock.None? && s1.tableLock == Some(t)) || (s.tableLock == Some(t) && s1.tableLock.None?))
    && (HasLock(s1.threads[t].pc) <==> s1.lock == Some(t))
    && (HasTableLock(s1.threads[t].pc) <==> s1.tableLock == Some(t))
  }

  lemma LocksOf(s: Sys, t: nat)
    requires LocksOk(s) && t in s.threads
    ensures HasLock(s.threads[t].pc) <==> s.lock == Some(t)
    ensures HasTableLock(s.threads[t].pc) <==> s.tableLock == Some(t)
  {
  }

  lemma QuietMoves(s: Sys, t: nat)
    requires Wf(s.pipe) && t in s.threads && RoleOk(s.threads[t])
    requires HasLock(s.threads[t].pc) <==> s.lock == Some(t)
    requires HasTableLock(s.threads[t].pc) <==> s.tableLock == Some(t)
    requires !s.threads[t].pc.Body? && !s.threads[t].pc.Leaving? && RunStep(s, t).Some?
    ensures var s1 := RunStep(s, t).value;
      && (s.threads[t].pc.Waking? ==> Moves(s.(threads := Woken(s.threads, WakesReaders(s.threads[t].role))), s1, t))
      && (!s.threads[t].pc.Waking? ==> Moves(s, s1, t))
  {
  }

  lemma WokenKeeps(s: Sys, readers: bool)
    requires LocksOk(s) && forall t | t in s.threads :: RoleOk(s.threads[t])
    ensures var s1 := s.(threads := Woken(s.threads, readers));
      LocksOk(s1) && SameRoles(s, s1) && forall t | t in s1.threads :: RoleOk(s1.threads[t])
  {
    hide Woken;
    var w := Woken(s.threads, readers);
    forall t ensures t in w <==> t in s.threads { WokenAt(s.threads, readers, t); }
    forall t | t in s.threads ensures w[t] == s.threads[t] || (s.threads[t].pc.Asleep? && w[t] == s.threads[t].(pc := Want)) {
      WokenAt(s.threads, readers, t);
    }
  }

  lemma WokenAt(threads: map<nat, Thread>, readers: bool, t: nat)
    ensures t in Woken(threads, readers) <==> t in threads
    ensures t in threads ==> var th := threads[t];
      Woken(threads, readers)[t] == if th.pc.Asleep? && th.role.Reader? == readers then th.(pc := Want) else th
  {
  }

  lemma MovesKeeps(s: Sys, s1: Sys, t: nat)
    requires Moves(s, s1, t) && LocksOk(s) && forall u | u in s.threads :: RoleOk(s.threads[u])
    ensures LocksOk(s1) && SameRoles(s, s1) && forall u | u in s1.threads :: RoleOk(s1.threads[u])
  {
  }

  lemma QuietShape(s: Sys, t: nat)
    requires BaseInv(s) && t in s.threads && !s.threads[t].pc.Body? && !s.threads[t].pc.Leaving? && RunStep(s, t).Some?
    ensures var s1 := RunStep(s, t).value;
      && s1.pipe == s.pipe && s1.sent == s.sent && s1.recv == s.recv && s1.freed == s.freed && SameRoles(s, s1)
      && LocksOk(s1) && forall u | u in s1.threads :: RoleOk(s1.threads[u])
  {
    hide Holds;
    hide EndsOk;
    hide FreeOk;
    hide LocksOk;
    hide RunStep;
    hide Woken;
    LocksOf(s, t);
    QuietMoves(s, t);
    if s.threads[t].pc.Waking? {
      var m := s.(threads := Woken(s.threads, WakesReaders(s.threads[t].role)));
      WokenKeeps(s, WakesReaders(s.threads[t].role));
      MovesKeeps(m, RunStep(s, t).value, t);
    } else {
      MovesKeeps(s, RunStep(s, t).value, t);
    }
  }

  lemma QuietFree(s: Sys, t: nat)
    requires BaseInv(s) && t in s.threads && !s.threads[t].pc.Body? && !s.threads[t].pc.Leaving? && RunStep(s, t).Some?
    ensures FreeOk(RunStep(s, t).value)
  {
    hide Holds;
    hide EndsOk;
    hide LocksOk;
    if s.freed { NoneWants(s, t); }
    if !s.pipe.readopen && !s.pipe.writeopen && !s.threads[t].role.Closer? { EndOver(s, t); }
  }

  lemma QuietInv(s: Sys, t: nat)
    requires BaseInv(s) && t in s.threads && !s.threads[t].pc.Body? && !s.threads[t].pc.Leaving? && RunStep(s, t).Some?
    ensures BaseInv(RunStep(s, t).value)
  {
    hide Holds;
    hide EndsOk;
    hide LocksOk;
    hide FreeOk;
    hide RunStep;
    hide SameRoles;
    QuietShape(s, t);
    QuietFree(s, t);
    QuietFlags(s, RunStep(s, t).value);
  }

  lemma QuietFlags(s: Sys, s1: Sys)
    requires EndsOk(s) && SameRoles(s, s1) && s1.pipe == s.pipe
    ensures EndsOk(s1)
  {
    hide EndsOk;
    EndsKept(s, s1);
  }

  // Once the pipe is freed every call is over: nobody will look at it again.
  lemma NoneWants(s: Sys, t: nat)
    requires BaseInv(s) && t in s.threads && s.freed
    ensures s.threads[t].pc.Returned?
  {
    hide Holds;
    if !s.threads[t].role.Closer? {
      EndOver(s, t);
    } else {
      var u :| u in s.threads && Closed(s.threads[u], s.threads[t].role.writable);
      assert Apart(s, u, t);
    }
  }

  lemma LeaveInv(s: Sys, t: nat)
    requires BaseInv(s) && t in s.threads && s.threads[t].pc.Leaving?
    ensures BaseInv(RunStep(s, t).value)
  {
    hide Holds;
    hide EndsOk;
    var s1 := RunStep(s, t).value;
    EndsKept(s, s1);
    if !s.pipe.readopen && !s.pipe.writeopen && !s.threads[t].role.Closer? { EndOver(s, t); }
  }

  lemma StepBase(s: Sys, a: Action)
    requires BaseInv(s) && Step(s, a).Some?
    ensures BaseInv(Step(s, a).value)
  {
    hide BaseInv;
    match a
    case Start(t, role) => StartInv(s, t, role);
    case Kill(t) => KillInv(s, t);
    case Run(t) =>
      if s.threads[t].pc.Body? { BodyInv(s, t); }
      else if s.threads[t].pc.Leaving? { LeaveInv(s, t); }
      else { QuietInv(s, t); }
  }

  /** The state after a run; None when some step was not possible. */
  ghost function Runs(s: Sys, run: seq<Action>): (r: Option<Sys>)
    requires BaseInv(s)
    ensures r.Some? ==> BaseInv(r.value)
    decreases |run|
  {
    if run == [] then Some(s)
    else if Step(s, run[0]).None? then None
    else StepBase(s, run[0]); Runs(Step(s, run[0]).value, run[1..])
  }

  /** FIFO: over any run of readers, writers and closers, killed or not, the bytes returned are a
      prefix of the bytes accepted and at most 512 are in between, wrapped counters or not. */
  lemma Fifo(s: Sys, run: seq<Action>)
    requires Initial(s) && (InitialInv(s); Runs(s, run).Some?)
    ensures BaseInv(s)
    ensures var s1 := Runs(s, run).value; s1.recv <= s1.sent && |s1.sent| - |s1.recv| <= PIPESIZE
  {
    InitialInv(s);
  }

  /** The page is freed exactly when both ends are closed and the last closer is out; by then
      every call on the pipe has returned, so nobody uses it again. */
  lemma FreedWhenUnused(s: Sys, run: seq<Action>, t: nat)
    requires Initial(s) && (InitialInv(s); Runs(s, run).Some?)
    ensures BaseInv(s)
    ensures var s1 := Runs(s, run).value;
      && (s1.freed <==> !s1.pipe.readopen && !s1.pipe.writeopen && s1.lock.None?)
      && (s1.freed && t in s1.threads ==> s1.threads[t].pc.Returned?)
  {
    hide Runs;
    hide Holds;
    hide EndsOk;
    hide LocksOk;
    InitialInv(s);
    var s1 := Runs(s, run).value;
    if s1.freed && t in s1.threads { NoneWants(s1, t); }
  }

  // ---------------------------------------------------------------- wakeups

  predicate Down(pc: Pc) { pc.Dozing? || pc.Asleep? }

  predicate InBed(pc: Pc) { pc.Nap? || pc.Napping? }

  // What a sleeper waits out: the pipe is empty, or full, and the other end is open.
  predicate MustWait(p: Pipe, reader: bool) { if reader then Empty(p) && p.writeopen else Full(p) && p.readopen }

  /** The holder of the pipe's lock has yet to do the wakeup of that channel. */
  predicate Owed(s: Sys, readers: bool) {
    && s.lock.Some? && s.lock.value in s.threads
    && var th := s.threads[s.lock.value]; (th.pc.Wake? || th.pc.Waking?) && WakesReaders(th.role) == readers
  }

  ghost predicate ThreadWaits(s: Sys, th: Thread) {
    && (Down(th.pc) ==> MustWait(s.pipe, th.role.Reader?) || Owed(s, th.role.Reader?))
    && (InBed(th.pc) ==> MustWait(s.pipe, th.role.Reader?))
    && ((th.pc.Wake? || th.pc.Waking?) && th.pc.next.Sleeps? ==> MustWait(s.pipe, false))
  }

  ghost predicate WakeInv(s: Sys) { forall t | t in s.threads :: ThreadWaits(s, s.threads[t]) }

  /** A killed writer fills the pipe under a sleeping reader and leaves without a wakeup. */
  ghost predicate CutOff(s: Sys, t: nat) {
    && t in s.threads && s.threads[t].role.Writer? && s.threads[t].pc.Body? && s.threads[t].killed && Wf(s.pipe) && ThreadOk(s.threads[t])
    && 0 < WriteLoop(s.pipe, s.threads[t].role.bytes[s.threads[t].i..]).1 < |s.threads[t].role.bytes| - s.threads[t].i
    && exists r :: r in s.threads && s.threads[r].role.Reader? && Down(s.threads[r].pc)
  }

  lemma StartWaits(s: Sys, t: nat, role: Role)
    requires BaseInv(s) && WakeInv(s) && Step(s, Start(t, role)).Some?
    ensures WakeInv(Step(s, Start(t, role)).value)
  {
    hide EndsOk;
    hide FreeOk;
    hide Holds;
    hide MustWait;
  }

  lemma KillWaits(s: Sys, t: nat)
    requires BaseInv(s) && WakeInv(s) && Step(s, Kill(t)).Some?
    ensures WakeInv(Step(s, Kill(t)).value)
  {
    hide EndsOk;
    hide FreeOk;
    hide Holds;
    hide MustWait;
  }

  lemma WakingWaits(s: Sys, t: nat)
    requires BaseInv(s) && WakeInv(s) && t in s.threads && s.threads[t].pc.Waking?
    ensures WakeInv(RunStep(s, t).value)
  {
    hide EndsOk;
    hide FreeOk;
    hide Holds;
    hide MustWait;
    hide Woken;
    var s1, readers := RunStep(s, t).value, WakesReaders(s.threads[t].role);
    forall u | u in s1.threads ensures ThreadWaits(s1, s1.threads[u]) {
      WokenAt(s.threads, readers, u);
      WokenAt(s.threads, readers, t);
      assert u in s.threads && ThreadWaits(s, s.threads[u]) && ThreadWaits(s, s.threads[t]);
      LocksOf(s, u);
      LocksOf(s, t);
    }
  }

  lemma QuietWaits(s: Sys, t: nat)
    requires BaseInv(s) && WakeInv(s) && t in s.threads && !s.threads[t].pc.Waking? && !s.threads[t].pc.Body? && RunStep(s, t).Some?
    ensures WakeInv(RunStep(s, t).value)
  {
    hide EndsOk;
    hide FreeOk;
    hide Holds;
    hide MustWait;
    hide LocksOk;
    var s1 := RunStep(s, t).value;
    forall u | u in s1.threads ensures ThreadWaits(s1, s1.threads[u]) {
      assert u in s.threads && ThreadWaits(s, s.threads[u]) && ThreadWaits(s, s.threads[t]);
      LocksOf(s, u);
      LocksOf(s, t);
    }
  }

  // A writer that finds the pipe full stores nothing.
  lemma FullStoresNothing(p: Pipe, bytes: seq<char>)
    requires Wf(p)
    ensures if Full(p) || bytes == [] then WriteLoop(p, bytes) == (p, 0) else WriteLoop(p, bytes).1 > 0
  {
  }

  lemma WriteEndsFull(p: Pipe, bytes: seq<char>, sent: seq<char>, recv: seq<char>)
    requires Holds(p, sent, recv) && Wf(p)
    ensures var (p1, k) := WriteLoop(p, bytes); k < |bytes| ==> Full(p1)
  {
    hide WriteLoop;
    hide Holds;
    WriteLoopPuts(p, bytes, sent, recv);
    var (p1, k) := WriteLoop(p, bytes);
    TestsMean(p1, sent + bytes[..k], recv);
    HoldsFacts(p, sent, recv);
  }

  lemma HoldsFacts(p: Pipe, sent: seq<char>, recv: seq<char>)
    requires Holds(p, sent, recv)
    ensures Wf(p) && recv <= sent && |sent| - |recv| <= PIPESIZE
  {
  }

  lemma BodyWaits(s: Sys, t: nat)
    requires BaseInv(s) && WakeInv(s) && t in s.threads && s.threads[t].pc.Body? && !CutOff(s, t)
    ensures WakeInv(BodyStep(s, t))
  {
    hide BaseInv;
    hide BodyStep;
    hide CutOff;
    hide ThreadWaits;
    BaseFacts(s);
    BodyShape(s, t);
    var s1 := BodyStep(s, t);
    forall u | u in s1.threads ensures ThreadWaits(s1, s1.threads[u]) {
      match s.threads[t].role
      case Reader(n) => ReaderWaits(s, t, u);
      case Writer(bytes) => WriterWaits(s, t, u);
      case Closer(w) => CloserWaits(s, t, u);
    }
  }

  lemma BaseFacts(s: Sys)
    requires BaseInv(s)
    ensures Wf(s.pipe) && forall t | t in s.threads :: RoleOk(s.threads[t])
  {
  }

  // While t has the lock at its loop, nothing is owed: sleepers are right to wait.
  lemma AllWait(s: Sys, t: nat, u: nat)
    requires BaseInv(s) && WakeInv(s) && t in s.threads && s.threads[t].pc.Body? && u in s.threads
    ensures s.lock == Some(t)
    ensures Down(s.threads[u].pc) ==> MustWait(s.pipe, s.threads[u].role.Reader?)
    ensures u != t ==> !HasLock(s.threads[u].pc)
  {
    hide EndsOk;
    hide FreeOk;
    hide Holds;
    assert ThreadWaits(s, s.threads[u]);
  }

  lemma ReaderWaits(s: Sys, t: nat, u: nat)
    requires BaseInv(s) && WakeInv(s) && t in s.threads && s.threads[t].pc.Body? && s.threads[t].role.Reader? && u in s.threads
    ensures ThreadWaits(BodyStep(s, t), BodyStep(s, t).threads[u])
  {
    hide WakeInv;
    hide EndsOk;
    hide FreeOk;
    hide LocksOk;
    hide Holds;
    hide ReadLoop;
    AllWait(s, t, u);
  }

  lemma WriterWaits(s: Sys, t: nat, u: nat)
    requires BaseInv(s) && WakeInv(s) && t in s.threads && s.threads[t].pc.Body? && s.threads[t].role.Writer? && u in s.threads
    requires !CutOff(s, t)
    ensures ThreadWaits(BodyStep(s, t), BodyStep(s, t).threads[u])
  {
    hide WakeInv;
    hide EndsOk;
    hide FreeOk;
    hide LocksOk;
    hide Holds;
    hide WriteLoop;
    var th := s.threads[t];
    AllWait(s, t, u);
    WriteEndsFull(s.pipe, th.role.bytes[th.i..], s.sent, s.recv);
    WriteLoopFlags(s.pipe, th.role.bytes[th.i..]);
    FullStoresNothing(s.pipe, th.role.bytes[th.i..]);
    if s.threads[u].role.Reader? && !s.pipe.readopen { EndOver(s, u); }
  }

  lemma CloserWaits(s: Sys, t: nat, u: nat)
    requires BaseInv(s) && WakeInv(s) && t in s.threads && s.threads[t].pc.Body? && s.threads[t].role.Closer? && u in s.threads
    ensures ThreadWaits(BodyStep(s, t), BodyStep(s, t).threads[u])
  {
    hide WakeInv;
    hide EndsOk;
    hide FreeOk;
    hide LocksOk;
    hide Holds;
    AllWait(s, t, u);
  }

  lemma StepWaits(s: Sys, a: Action)
    requires BaseInv(s) && WakeInv(s) && Step(s, a).Some? && (a.Run? ==> !CutOff(s, a.t))
    ensures WakeInv(Step(s, a).value)
  {
    hide BaseInv;
    hide WakeInv;
    hide CutOff;
    match a
    case Start(t, role) => StartWaits(s, t, role);
    case Kill(t) => KillWaits(s, t);
    case Run(t) =>
      if s.threads[t].pc.Body? { BodyWaits(s, t); }
      else if s.threads[t].pc.Waking? { WakingWaits(s, t); }
      else { QuietWaits(s, t); }
  }

  // No step of the run is one that cuts readers off.
  ghost predicate NoCutOff(s: Sys, run: seq<Action>)
    requires BaseInv(s)
    decreases |run|
  {
    run != [] && Step(s, run[0]).Some? ==>
      && (run[0].Run? ==> !CutOff(s, run[0].t))
      && (StepBase(s, run[0]); NoCutOff(Step(s, run[0]).value, run[1..]))
  }

  /** While the pipe's lock is free, a reader sleeps only on an empty pipe whose write end is
      open, and a writer only on a full pipe whose read end is open. */
  ghost predicate NoLostWakeup(s: Sys) {
    s.lock.None? ==> forall t | t in s.threads && s.threads[t].pc.Asleep? :: MustWait(s.pipe, s.threads[t].role.Reader?)
  }

  lemma {:induction false} RunWaits(s: Sys, run: seq<Action>)
    requires BaseInv(s) && WakeInv(s) && Runs(s, run).Some? && NoCutOff(s, run)
    ensures WakeInv(Runs(s, run).value)
    decreases |run|
  {
    hide Step;
    hide WakeInv;
    hide CutOff;
    if run != [] {
      StepBase(s, run[0]);
      StepWaits(s, run[0]);
      RunWaits(Step(s, run[0]).value, run[1..]);
    }
  }

  /** No lost wakeup, over all interleavings of readers, writers, closers and kills in which no
      killed writer leaves a pipe it has just filled under a sleeping reader. */
  lemma NoWakeupIsLost(s: Sys, run: seq<Action>)
    requires Initial(s) && (InitialInv(s); Runs(s, run).Some? && NoCutOff(s, run))
    ensures BaseInv(s)
    ensures NoLostWakeup(Runs(s, run).value)
  {
    hide Runs;
    hide MustWait;
    InitialInv(s);
    RunWaits(s, run);
    var s1 := Runs(s, run).value;
    forall t | t in s1.threads && s1.threads[t].pc.Asleep? && s1.lock.None? ensures MustWait(s1.pipe, s1.threads[t].role.Reader?) {
      assert ThreadWaits(s1, s1.threads[t]);
    }
  }

  /** So readers and writers never sleep at the same time. */
  lemma NotBothAsleep(s: Sys, t: nat, u: nat)
    requires BaseInv(s) && WakeInv(s) && s.lock.None? && t in s.threads && u in s.threads
    requires s.threads[t].pc.Asleep? && s.threads[u].pc.Asleep?
    ensures s.threads[t].role.Reader? == s.threads[u].role.Reader?
  {
    hide LocksOk;
    hide EndsOk;
    hide FreeOk;
    hide Holds;
    assert ThreadWaits(s, s.threads[t]) && ThreadWaits(s, s.threads[u]);
    EmptyNotFull(s.pipe);
  }

  lemma EmptyNotFull(p: Pipe)
    ensures !(Empty(p) && Full(p))
  {
  }

  // The writer returns, and the reader, if it is not SLEEPING yet, goes to sleep.
  function AfterCutOff(s: Sys, t: nat, r: nat): seq<Action>
    requires r in s.threads
  {
    [Run(t)] + ([Run(t)] + if s.threads[r].pc.Dozing? then [Run(r)] + [] else [])
  }

  /** Exactly then: when a killed writer cuts readers off, every reader that was asleep or on its
      way to sleep is asleep, with the pipe full and its lock free, once the writer has returned. */
  lemma CutOffLosesWakeup(s: Sys, t: nat, r: nat)
    requires BaseInv(s) && WakeInv(s) && CutOff(s, t) && r in s.threads && s.threads[r].role.Reader? && Down(s.threads[r].pc)
    ensures var q := Runs(s, AfterCutOff(s, t, r));
      && q.Some? && !NoLostWakeup(q.value) && Full(q.value.pipe) && q.value.lock.None?
      && r in q.value.threads && q.value.threads[r].pc.Asleep?
  {
    hide BaseInv;
    hide WakeInv;
    hide Runs;
    hide BodyStep;
    BaseFacts(s);
    CutOffStep(s, t, r);
    var s1 := BodyStep(s, t);
    var s2 := At(s1, t, Returned(-1)).(lock := None, freed := s1.freed);
    var rest := if s.threads[r].pc.Dozing? then [Run(r)] + [] else [];
    RunsStep(s, Run(t), [Run(t)] + rest, s1);
    RunsStep(s1, Run(t), rest, s2);
    if s.threads[r].pc.Dozing? {
      var s3 := At(s2, r, Asleep).(tableLock := None);
      RunsStep(s2, Run(r), [], s3);
      RunsNil(s3);
      LostAt(s3, r);
    } else {
      RunsNil(s2);
      LostAt(s2, r);
    }
  }

  lemma LostAt(s: Sys, r: nat)
    requires s.lock.None? && r in s.threads && s.threads[r].pc.Asleep? && s.threads[r].role.Reader? && Full(s.pipe)
    ensures !NoLostWakeup(s)
  {
    EmptyNotFull(s.pipe);
  }

  lemma CutOffStep(s: Sys, t: nat, r: nat)
    requires BaseInv(s) && WakeInv(s) && CutOff(s, t) && r in s.threads && s.threads[r].role.Reader? && Down(s.threads[r].pc)
    ensures var s1 := BodyStep(s, t);
      && t in s1.threads && s1.threads[t].pc == Leaving(-1) && !s1.threads[t].role.Closer? && Wf(s1.pipe) && ThreadOk(s1.threads[t])
      && Full(s1.pipe) && r != t && r in s1.threads && s1.threads[r] == s.threads[r] && s1.tableLock == s.tableLock
  {
    hide WriteLoop;
    hide EndsOk;
    hide FreeOk;
    hide LocksOk;
    hide Holds;
    hide WakeInv;
    var th := s.threads[t];
    WriteEndsFull(s.pipe, th.role.bytes[th.i..], s.sent, s.recv);
  }

  lemma RunsStep(s: Sys, a: Action, run: seq<Action>, s1: Sys)
    requires BaseInv(s) && Step(s, a) == Some(s1)
    ensures BaseInv(s1) && Runs(s, [a] + run) == Runs(s1, run)
  {
    hide Step;
    StepBase(s, a);
    assert ([a] + run)[1..] == run;
  }

  // A reader goes to sleep on an empty pipe: five steps.
  lemma ReaderSleeps(s: Sys, run: seq<Action>)
    requires BaseInv(s) && s.threads == map[0 := Thread(Reader(1), 0, false, Want)] && s.lock.None? && s.tableLock.None?
    requires Empty(s.pipe) && s.pipe.writeopen
    ensures var s1 := s.(threads := map[0 := Thread(Reader(1), 0, false, Asleep)]);
      BaseInv(s1) && Runs(s, [Run(0)] + ([Run(0)] + ([Run(0)] + ([Run(0)] + ([Run(0)] + run))))) == Runs(s1, run)
  {
    hide BaseInv;
    hide Runs;
    BaseFacts(s);
    var th := Thread(Reader(1), 0, false, Want);
    var a := At(s, 0, Body).(lock := Some(0));
    var b := At(a, 0, Nap);
    var c := At(b, 0, Napping).(tableLock := Some(0));
    var d := At(c, 0, Dozing).(lock := None);
    var e := At(d, 0, Asleep).(tableLock := None);
    RunsStep(s, Run(0), [Run(0)] + ([Run(0)] + ([Run(0)] + ([Run(0)] + run))), a);
    RunsStep(a, Run(0), [Run(0)] + ([Run(0)] + ([Run(0)] + run)), b);
    RunsStep(b, Run(0), [Run(0)] + ([Run(0)] + run), c);
    RunsStep(c, Run(0), [Run(0)] + run, d);
    RunsStep(d, Run(0), run, e);
    assert e.threads == map[0 := th.(pc := Asleep)];
  }

  /** It can happen: a reader sleeps on a new pipe, and a killed writer of 513 bytes comes. */
  lemma WakeupCanBeLost(s: Sys)
    requires Initial(s)
    ensures BaseInv(s)
    ensures exists run :: Runs(s, run).Some? && !NoLostWakeup(Runs(s, run).value)
  {
    hide BaseInv;
    hide Runs;
    hide WriteLoop;
    InitialInv(s);
    var bytes := seq(PIPESIZE + 1, i => 'x');
    var reader := Thread(Reader(1), 0, false, Want);
    var a := s.(threads := map[0 := reader]);
    var b := s.(threads := map[0 := reader.(pc := Asleep)]);
    var writer := Thread(Writer(bytes), 0, false, Want);
    var c := b.(threads := b.threads[1 := writer]);
    var d := c.(threads := c.threads[1 := writer.(killed := true)]);
    var e := At(d, 1, Body).(lock := Some(1));
    var last := AfterCutOff(e, 1, 0);
    var run4 := [Start(1, Writer(bytes))] + ([Kill(1)] + ([Run(1)] + last));
    var run := [Start(0, Reader(1))] + ([Run(0)] + ([Run(0)] + ([Run(0)] + ([Run(0)] + ([Run(0)] + run4)))));
    assert a.threads == s.threads[0 := reader];
    RunsStep(s, Start(0, Reader(1)), [Run(0)] + ([Run(0)] + ([Run(0)] + ([Run(0)] + ([Run(0)] + run4)))), a);
    ReaderSleeps(a, run4);
    RunsStep(b, Start(1, Writer(bytes)), [Kill(1)] + ([Run(1)] + last), c);
    RunsStep(c, Kill(1), [Run(1)] + last, d);
    RunsStep(d, Run(1), last, e);
    InitialHolds(s);
    WriteLoopPuts(e.pipe, bytes, [], []);
    assert bytes[0..] == bytes;
    assert e.threads[0].pc.Asleep? && CutOff(e, 1);
    BedTime(e);
    CutOffLosesWakeup(e, 1, 0);
    assert Runs(s, run).Some?;
  }

  lemma InitialHolds(s: Sys)
    requires Initial(s)
    ensures Holds(s.pipe, [], []) && Empty(s.pipe)
  {
  }

  lemma RunsNil(s: Sys)
    requires BaseInv(s)
    ensures Runs(s, []) == Some(s)
  {
  }

  lemma BedTime(s: Sys)
    requires s.threads.Keys == {0, 1} && s.threads[0].role.Reader? && s.threads[0].pc.Asleep? && Empty(s.pipe) && s.pipe.writeopen && s.threads[1].pc.Body?
    ensures WakeInv(s)
  {
  }
}
