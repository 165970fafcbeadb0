/** What each call on a pipe of P5_XV6_CoW_Fork/kernel/pipe.c returns and which bytes are its own,
    over runs of readers, writers, closers and kills. */
module PipeCalls {
  import opened PipeBuffer
  import opened PipeSystem
  import opened Wrappers

  // ---------------------------------------------------------------- the loops' outcome

  // What the call will return, from the moment that is settled.
  function Decided(th: Thread): Option<int> {
    match th.pc
    case Wake(Leaves(r)) => Some(r)
    case Waking(Leaves(r)) => Some(r)
    case Leaving(r) => Some(r)
    case Returned(r) => Some(r)
    case _ => None
  }

  /** The step from s to s1 settles that t returns r.  A reader: -1 when it is killed and finds the
      pipe empty with the write end open, otherwise the number of bytes it takes, all there are up to
      as many as it asks for.  A writer: its number of bytes when the last of them go in, -1 when
      they do not all fit and the read end is closed or it is killed.  A closer: 0. */
  ghost predicate Settles(s: Sys, s1: Sys, t: nat, r: int)
    requires t in s.threads && s.recv <= s.sent && ThreadOk(s.threads[t])
  {
    var th, backlog := s.threads[t], |s.sent| - |s.recv|;
    match th.role
    case Reader(n) =>
      && s1.sent == s.sent
      && (if backlog == 0 && s.pipe.writeopen then r == -1 && th.killed && s1.recv == s.recv
          else 0 <= r && r == (if n <= backlog then n else backlog) && s1.recv == s.recv + s.sent[|s.recv|..|s.recv| + r])
    case Writer(bytes) =>
      && s1.recv == s.recv
      && (if |bytes| - th.i <= 512 - backlog then r == |bytes| && s1.sent == s.sent + bytes[th.i..]
          else
            && r == -1 && (!s.pipe.readopen || th.killed)
            && th.i <= th.i + 512 - backlog <= |bytes| && s1.sent == s.sent + bytes[th.i..th.i + 512 - backlog])
    case Closer(writable) =>
      && r == 0 && s1.sent == s.sent && s1.recv == s.recv && s1.pipe.writeopen == (s.pipe.writeopen && !writable)
      && s1.pipe.readopen == (s.pipe.readopen && writable)
  }

  /** The step from s to s1 sends t to sleep: a reader that is not killed, on an empty pipe whose write
      end is open; a writer that is not killed, with the read end open, once it has put in what fits. */
  ghost predicate Blocks(s: Sys, s1: Sys, t: nat)
    requires t in s.threads && s.recv <= s.sent && ThreadOk(s.threads[t])
  {
    var th, backlog := s.threads[t], |s.sent| - |s.recv|;
    && s1.recv == s.recv && !th.killed
    && match th.role
       case Reader(n) => backlog == 0 && s.pipe.writeopen && s1.sent == s.sent
       case Writer(bytes) =>
         s.pipe.readopen && th.i <= th.i + 512 - backlog < |bytes| && s1.sent == s.sent + bytes[th.i..th.i + 512 - backlog]
       case Closer(_) => false
  }

  /** The loops under the lock, with bytes instead of counters: a call is settled or blocks. */
  lemma BodyLaw(s: Sys, t: nat)
    requires BaseInv(s) && t in s.threads && s.threads[t].pc.Body?
    ensures s.recv <= s.sent && ThreadOk(s.threads[t])
    ensures Step(s, Run(t)) == Some(BodyStep(s, t)) && t in BodyStep(s, t).threads
    ensures match Decided(BodyStep(s, t).threads[t])
      case Some(r) => Settles(s, BodyStep(s, t), t, r)
      case None => Blocks(s, BodyStep(s, t), t)
    ensures var s1 := BodyStep(s, t); s.threads[t].role.Writer? && t in s1.threads ==> s1.threads[t].i - s.threads[t].i == |s1.sent| - |s.sent|
  {
    hide BaseInv;
    hide BodyStep;
    hide Settles;
    hide Blocks;
    BodyFacts(s, t);
    match s.threads[t].role {
      case Reader(n) => ReaderLaw(s, t);
      case Writer(bytes) => WriterLaw(s, t);
      case Closer(_) => CloserLaw(s, t);
    }
  }

  lemma BodyFacts(s: Sys, t: nat)
    requires BaseInv(s) && t in s.threads && s.threads[t].pc.Body?
    ensures Wf(s.pipe) && Holds(s.pipe, s.sent, s.recv) && s.recv <= s.sent && ThreadOk(s.threads[t])
    ensures forall u | u in s.threads :: ThreadOk(s.threads[u])
    ensures Step(s, Run(t)) == Some(BodyStep(s, t))
  {
    hide BodyStep;
    hide Holds;
    HoldsFacts(s.pipe, s.sent, s.recv);
  }

  ghost predicate SettlesOrBlocks(s: Sys, t: nat)
    requires t in s.threads && Wf(s.pipe) && s.recv <= s.sent && ThreadOk(s.threads[t])
  {
    var s1 := BodyStep(s, t);
    && t in s1.threads
    && (Decided(s1.threads[t]).Some? ==> Settles(s, s1, t, Decided(s1.threads[t]).value))
    && (Decided(s1.threads[t]).None? ==> Blocks(s, s1, t))
    && (s.threads[t].role.Writer? ==> s1.threads[t].i - s.threads[t].i == |s1.sent| - |s.sent|)
  }

  lemma ReaderLaw(s: Sys, t: nat)
    requires t in s.threads && s.threads[t].role.Reader? && Wf(s.pipe) && Holds(s.pipe, s.sent, s.recv) && s.recv <= s.sent && s.threads[t].pc.Body?
    ensures SettlesOrBlocks(s, t)
  {
    hide Holds;
    hide ReadLoop;
    TestsMean(s.pipe, s.sent, s.recv);
    ReadLoopBytes(s.pipe, s.threads[t].role.n, s.sent, s.recv);
  }

  lemma WriterLaw(s: Sys, t: nat)
    requires t in s.threads && s.threads[t].role.Writer? && Wf(s.pipe) && Holds(s.pipe, s.sent, s.recv) && s.recv <= s.sent && ThreadOk(s.threads[t])
    ensures SettlesOrBlocks(s, t)
  {
    hide Holds;
    hide WriteLoop;
    WriteLoopBytes(s.pipe, s.threads[t].role.bytes, s.threads[t].i, s.sent, s.recv);
  }

  lemma CloserLaw(s: Sys, t: nat)
    requires t in s.threads && s.threads[t].role.Closer? && Wf(s.pipe) && s.recv <= s.sent
    ensures SettlesOrBlocks(s, t)
  {
  }

  lemma ReadLoopBytes(p: Pipe, n: nat, sent: seq<char>, recv: seq<char>)
    requires Holds(p, sent, recv)
    ensures recv <= sent && |ReadLoop(p, n).1| == Min(n, |sent| - |recv|)
    ensures ReadLoop(p, n).1 == sent[|recv|..|recv| + |ReadLoop(p, n).1|]
  {
    hide ReadLoop;
    ReadLoopTakes(p, n, sent, recv);
    HoldsFacts(ReadLoop(p, n).0, sent, recv + ReadLoop(p, n).1);
  }

  lemma WriteLoopBytes(p: Pipe, bytes: seq<char>, i: nat, sent: seq<char>, recv: seq<char>)
    requires Holds(p, sent, recv) && i <= |bytes|
    ensures var (p1, k) := WriteLoop(p, bytes[i..]);
      && k == Min(|bytes| - i, 512 - (|sent| - |recv|)) && p1.readopen == p.readopen && p1.writeopen == p.writeopen
      && (i + k == |bytes| ==> bytes[i..i + k] == bytes[i..])
  {
    hide WriteLoop;
    hide Holds;
    HoldsFacts(p, sent, recv);
    WriteLoopPuts(p, bytes[i..], sent, recv);
    WriteLoopFlags(p, bytes[i..]);
  }

  // ---------------------------------------------------------------- one step

  // The call goes on as it was, but for going to sleep, waking and taking or dropping locks.
  predicate Same(th: Thread, th1: Thread) {
    th1.role == th.role && th1.killed == th.killed && th1.i == th.i && Decided(th1) == Decided(th)
  }

  lemma QuietThread(s: Sys, u: nat, t: nat)
    requires Wf(s.pipe) && u in s.threads && ThreadOk(s.threads[u]) && !s.threads[u].pc.Body? && RunStep(s, u).Some?
    ensures var s1 := RunStep(s, u).value; t in s1.threads <==> t in s.threads
    ensures var s1 := RunStep(s, u).value; t in s.threads ==> Same(s.threads[t], s1.threads[t])
  {
    hide BodyStep;
    hide Woken;
    hide WakesReaders;
    WokenAt(s.threads, WakesReaders(s.threads[u].role), t);
    WokenAt(s.threads, WakesReaders(s.threads[u].role), u);
  }

  /** Only Start makes a thread; only the thread's own step at the loops changes what it has decided;
      only Kill kills it, and
      wakes it if it sleeps. */
  lemma ThreadStep(s: Sys, a: Action, t: nat)
    requires BaseInv(s) && Step(s, a).Some? && t in Step(s, a).value.threads
    ensures t !in s.threads ==> a.Start? && a.t == t && Step(s, a).value.threads[t] == Thread(a.role, 0, false, Want)
    ensures t in s.threads ==>
      var th, th1 := s.threads[t], Step(s, a).value.threads[t];
      && th1.role == th.role && (th1.killed <==> th.killed || a == Kill(t))
      && (a == Kill(t) ==> th1.pc == if th.pc.Asleep? then Want else th.pc)
      && (!(a == Run(t) && th.pc.Body?) ==> th1.i == th.i && Decided(th1) == Decided(th))
      && (th.pc.Body? ==> Decided(th).None?)
  {
    hide EndsOk;
    hide FreeOk;
    hide Holds;
    hide LocksOk;
    hide BodyStep;
    hide RunStep;
    match a {
      case Run(u) =>
        if s.threads[u].pc.Body? {
          BodyShape(s, u);
          BodyRuns(s, u);
        } else {
          QuietThread(s, u, t);
        }
      case _ =>
    }
  }

  lemma BodyRuns(s: Sys, t: nat)
    requires Wf(s.pipe) && t in s.threads && ThreadOk(s.threads[t]) && s.threads[t].pc.Body?
    ensures RunStep(s, t) == Some(BodyStep(s, t))
  {
  }

  /** Bytes are accepted and returned only by the steps at the loops, and at the end. */
  lemma BytesStep(s: Sys, a: Action)
    requires BaseInv(s) && Step(s, a).Some?
    ensures var s1 := Step(s, a).value;
      && s.sent <= s1.sent && s.recv <= s1.recv
      && (!(a.Run? && a.t in s.threads && s.threads[a.t].pc.Body?) ==> s1.sent == s.sent && s1.recv == s.recv)
  {
    hide EndsOk;
    hide FreeOk;
    hide Holds;
    hide LocksOk;
    hide ReadLoop;
    hide WriteLoop;
    hide Woken;
  }

  // ---------------------------------------------------------------- each call's own bytes

  // What thread t has put into the pipe, or taken from it.
  datatype Piece = Piece(t: nat, bytes: seq<char>)

  function Added(a: seq<char>, b: seq<char>): seq<char> { if |a| <= |b| then b[|a|..] else [] }

  function Flat(ps: seq<Piece>): seq<char> { if ps == [] then [] else ps[0].bytes + Flat(ps[1..]) }

  /** The bytes of t's pieces, in order. */
  function Own(ps: seq<Piece>, t: nat): seq<char> {
    if ps == [] then [] else (if ps[0].t == t then ps[0].bytes else []) + Own(ps[1..], t)
  }

  /** What was accepted, step by step, and from whom. */
  ghost function Puts(s: Sys, run: seq<Action>): seq<Piece>
    requires BaseInv(s)
    decreases |run|
  {
    if run == [] || Step(s, run[0]).None? then []
    else
      StepBase(s, run[0]);
      var s1 := Step(s, run[0]).value;
      (if run[0].Run? then [Piece(run[0].t, Added(s.sent, s1.sent))] else []) + Puts(s1, run[1..])
  }

  /** What was returned, step by step, and to whom. */
  ghost function Takes(s: Sys, run: seq<Action>): seq<Piece>
    requires BaseInv(s)
    decreases |run|
  {
    if run == [] || Step(s, run[0]).None? then []
    else
      StepBase(s, run[0]);
      var s1 := Step(s, run[0]).value;
      (if run[0].Run? then [Piece(run[0].t, Added(s.recv, s1.recv))] else []) + Takes(s1, run[1..])
  }

  lemma OwnFirst(p: Piece, ps: seq<Piece>, t: nat)
    ensures Flat([p] + ps) == p.bytes + Flat(ps)
    ensures Own([p] + ps, t) == (if p.t == t then p.bytes else []) + Own(ps, t)
  {
    assert ([p] + ps)[1..] == ps;
  }

  // The first step of a run and the rest.
  lemma FirstStep(s: Sys, run: seq<Action>) returns (m: Sys)
    requires BaseInv(s) && run != [] && Runs(s, run).Some?
    ensures Step(s, run[0]) == Some(m) && BaseInv(m) && Runs(m, run[1..]) == Runs(s, run)
    ensures Flat(Puts(s, run)) == Added(s.sent, m.sent) + Flat(Puts(m, run[1..]))
    ensures Flat(Takes(s, run)) == Added(s.recv, m.recv) + Flat(Takes(m, run[1..]))
    ensures forall t: nat :: Own(Puts(s, run), t) == (if run[0] == Run(t) then Added(s.sent, m.sent) else []) + Own(Puts(m, run[1..]), t)
    ensures forall t: nat :: Own(Takes(s, run), t) == (if run[0] == Run(t) then Added(s.recv, m.recv) else []) + Own(Takes(m, run[1..]), t)
  {
    hide Step;
    hide EndsOk;
    hide FreeOk;
    hide Holds;
    hide LocksOk;
    hide Flat;
    hide Own;
    m := Step(s, run[0]).value;
    StepBase(s, run[0]);
    BytesStep(s, run[0]);
    var puts, takes := Puts(m, run[1..]), Takes(m, run[1..]);
    if run[0].Run? {
      var a, b := Piece(run[0].t, Added(s.sent, m.sent)), Piece(run[0].t, Added(s.recv, m.recv));
      forall t: nat ensures Own([a] + puts, t) == (if a.t == t then a.bytes else []) + Own(puts, t) { OwnFirst(a, puts, t); }
      forall t: nat ensures Own([b] + takes, t) == (if b.t == t then b.bytes else []) + Own(takes, t) { OwnFirst(b, takes, t); }
      OwnFirst(a, puts, 0);
      OwnFirst(b, takes, 0);
    } else {
      assert [] + puts == puts && [] + takes == takes;
      forall t: nat ensures [] + Own(puts, t) == Own(puts, t) && [] + Own(takes, t) == Own(takes, t) {}
    }
  }

  /** What was accepted is the writers' pieces in order, and what was returned the readers'. */
  lemma {:induction false} PiecesMakeAll(s: Sys, run: seq<Action>)
    requires BaseInv(s) && Runs(s, run).Some?
    ensures var s1 := Runs(s, run).value; s1.sent == s.sent + Flat(Puts(s, run)) && s1.recv == s.recv + Flat(Takes(s, run))
    decreases |run|
  {
    hide Step;
    hide BaseInv;
    hide Runs;
    hide Puts;
    hide Takes;
    hide Flat;
    if run == [] {
      NoPieces(s);
    } else {
      var m := FirstStep(s, run);
      Grows(s, run[0], m);
      PiecesMakeAll(m, run[1..]);
      assert s.sent + (Added(s.sent, m.sent) + Flat(Puts(m, run[1..]))) == m.sent + Flat(Puts(m, run[1..]));
      assert s.recv + (Added(s.recv, m.recv) + Flat(Takes(m, run[1..]))) == m.recv + Flat(Takes(m, run[1..]));
    }
  }

  lemma Grows(s: Sys, a: Action, m: Sys)
    requires BaseInv(s) && Step(s, a) == Some(m)
    ensures m.sent == s.sent + Added(s.sent, m.sent) && m.recv == s.recv + Added(s.recv, m.recv)
  {
    hide Step;
    hide BaseInv;
    BytesStep(s, a);
  }

  lemma NoPieces(s: Sys)
    requires BaseInv(s)
    ensures Runs(s, []) == Some(s) && Flat(Puts(s, [])) == [] == Flat(Takes(s, []))
    ensures forall t: nat :: Own(Puts(s, []), t) == [] == Own(Takes(s, []), t)
  {
  }

  // ---------------------------------------------------------------- what a call returns

  // A writer that is through has put in all its bytes, or returns -1.
  predicate WriterOk(th: Thread)
    requires th.role.Writer?
  {
    Decided(th).Some? ==> Decided(th).value == if th.i == |th.role.bytes| then th.i else -1
  }

  function Begun(s: Sys, t: nat): nat { if t in s.threads then s.threads[t].i else 0 }

  lemma WriterStep(s: Sys, a: Action, t: nat)
    requires BaseInv(s) && Step(s, a).Some? && t in Step(s, a).value.threads && Step(s, a).value.threads[t].role.Writer?
    requires t in s.threads ==> s.threads[t].role.Writer? && WriterOk(s.threads[t])
    ensures var th1, bytes := Step(s, a).value.threads[t], Step(s, a).value.threads[t].role.bytes;
      && Begun(s, t) <= th1.i <= |bytes| && WriterOk(th1)
      && (if a == Run(t) then Added(s.sent, Step(s, a).value.sent) else []) == bytes[Begun(s, t)..th1.i]
  {
    hide Step;
    hide EndsOk;
    hide FreeOk;
    hide Holds;
    hide LocksOk;
    hide BodyStep;
    ThreadStep(s, a, t);
    BytesStep(s, a);
    if a == Run(t) && t in s.threads && s.threads[t].pc.Body? { BodyLaw(s, t); }
    StepThreadOk(s, a, t);
  }

  lemma StepThreadOk(s: Sys, a: Action, t: nat)
    requires BaseInv(s) && Step(s, a).Some? && t in Step(s, a).value.threads
    ensures ThreadOk(Step(s, a).value.threads[t]) && (a == Run(t) ==> t in s.threads)
  {
    hide EndsOk;
    hide FreeOk;
    hide Holds;
    hide LocksOk;
    StepBase(s, a);
  }

  // The thread is there, in the same role, at every later time.
  lemma {:induction false} StaysThere(s: Sys, run: seq<Action>, t: nat)
    requires BaseInv(s) && Runs(s, run).Some? && t in s.threads
    ensures var s1 := Runs(s, run).value; t in s1.threads && s1.threads[t].role == s.threads[t].role
    decreases |run|
  {
    hide Step;
    hide BaseInv;
    hide Runs;
    if run == [] {
      NoPieces(s);
    } else {
      var m := FirstStep(s, run);
      KeepsThread(s, run[0], t);
      StaysThere(m, run[1..], t);
    }
  }

  lemma KeepsThread(s: Sys, a: Action, t: nat)
    requires BaseInv(s) && Step(s, a).Some? && t in s.threads
    ensures t in Step(s, a).value.threads && Step(s, a).value.threads[t].role == s.threads[t].role
  {
    hide EndsOk;
    hide FreeOk;
    hide Holds;
    hide LocksOk;
    hide BodyStep;
    hide RunStep;
    match a {
      case Run(u) =>
        if s.threads[u].pc.Body? {
          BodyShape(s, u);
          BodyRuns(s, u);
        } else {
          QuietThread(s, u, t);
        }
      case _ =>
    }
  }

  lemma {:induction false} WriterPieces(s: Sys, run: seq<Action>, t: nat)
    requires BaseInv(s) && Runs(s, run).Some? && t in Runs(s, run).value.threads && Runs(s, run).value.threads[t].role.Writer?
    requires t in s.threads ==> s.threads[t].role.Writer? && WriterOk(s.threads[t])
    ensures var th1 := Runs(s, run).value.threads[t];
      && Begun(s, t) <= th1.i <= |th1.role.bytes| && WriterOk(th1) && Own(Puts(s, run), t) == th1.role.bytes[Begun(s, t)..th1.i]
    decreases |run|
  {
    hide Step;
    hide Runs;
    hide Puts;
    hide Own;
    hide BaseInv;
    if run == [] {
      NoPieces(s);
      ThereOk(s, t);
    } else {
      var m := FirstStep(s, run);
      if t in m.threads {
        StaysThere(m, run[1..], t);
        if t in s.threads { KeepsThread(s, run[0], t); }
        WriterStep(s, run[0], t);
      } else {
        if t in s.threads { KeepsThread(s, run[0], t); }
        NotYet(s, run[0], t);
      }
      WriterPieces(m, run[1..], t);
      var th1 := Runs(s, run).value.threads[t];
      Join(th1.role.bytes, Begun(s, t), Begun(m, t), th1.i);
    }
  }

  lemma ThereOk(s: Sys, t: nat)
    requires BaseInv(s) && t in s.threads
    ensures ThreadOk(s.threads[t])
  {
  }

  lemma Join(bytes: seq<char>, i: nat, j: nat, k: nat)
    requires i <= j <= k <= |bytes|
    ensures bytes[i..j] + bytes[j..k] == bytes[i..k]
  {
  }

  lemma NotYet(s: Sys, a: Action, t: nat)
    requires BaseInv(s) && Step(s, a).Some? && t !in s.threads
    ensures a != Run(t)
  {
  }

  // A reader takes bytes in the step that settles its call, as many as it returns.
  lemma ReaderStep(s: Sys, a: Action, t: nat)
    requires BaseInv(s) && Step(s, a).Some? && t in Step(s, a).value.threads && Step(s, a).value.threads[t].role.Reader?
    ensures var s1 := Step(s, a).value;
      var had, now := if t in s.threads then Decided(s.threads[t]) else None, Decided(s1.threads[t]);
      && (had.Some? ==> now == had)
      && |if a == Run(t) then Added(s.recv, s1.recv) else []| == (if had.None? && now.Some? && now.value > 0 then now.value else 0)
      && (had.None? && now.Some? ==> -1 <= now.value <= s1.threads[t].role.n)
  {
    hide Step;
    hide EndsOk;
    hide FreeOk;
    hide Holds;
    hide LocksOk;
    hide BodyStep;
    ThreadStep(s, a, t);
    BytesStep(s, a);
    StepThreadOk(s, a, t);
    if a == Run(t) && t in s.threads && s.threads[t].pc.Body? { BodyLaw(s, t); }
  }

  lemma {:induction false} ReaderPieces(s: Sys, run: seq<Action>, t: nat)
    requires BaseInv(s) && Runs(s, run).Some? && t in Runs(s, run).value.threads && Runs(s, run).value.threads[t].role.Reader?
    ensures var s1 := Runs(s, run).value;
      var had, now := if t in s.threads then Decided(s.threads[t]) else None, Decided(s1.threads[t]);
      && (had.Some? ==> now == had)
      && |Own(Takes(s, run), t)| == (if had.None? && now.Some? && now.value > 0 then now.value else 0)
      && (had.None? && now.Some? ==> -1 <= now.value <= s1.threads[t].role.n)
    decreases |run|
  {
    hide Step;
    hide Runs;
    hide Takes;
    hide Own;
    hide BaseInv;
    hide Decided;
    if run == [] {
      NoPieces(s);
    } else {
      var m := FirstStep(s, run);
      if t in m.threads {
        StaysThere(m, run[1..], t);
        ReaderStep(s, run[0], t);
      } else {
        if t in s.threads { KeepsThread(s, run[0], t); }
        NotYet(s, run[0], t);
      }
      ReaderPieces(m, run[1..], t);
    }
  }

  /** Action k of the run settles that t returns r, and t was killed by then only if the run killed it. */
  ghost predicate SettledAt(s: Sys, run: seq<Action>, k: nat, t: nat, r: int)
    requires BaseInv(s)
  {
    && k < |run| && run[k] == Run(t) && Runs(s, run[..k]).Some?
    && var m := Runs(s, run[..k]).value;
       && t in m.threads && m.threads[t].pc.Body? && m.recv <= m.sent && ThreadOk(m.threads[t]) && Step(m, Run(t)).Some?
       && Settles(m, Step(m, Run(t)).value, t, r) && (m.threads[t].killed ==> Kill(t) in run[..k] || (t in s.threads && s.threads[t].killed))
  }

  lemma {:induction false} DecidedStays(s: Sys, run: seq<Action>, t: nat)
    requires BaseInv(s) && Runs(s, run).Some? && t in s.threads && Decided(s.threads[t]).Some?
    ensures var s1 := Runs(s, run).value; t in s1.threads && Decided(s1.threads[t]) == Decided(s.threads[t])
    decreases |run|
  {
    hide Step;
    hide Runs;
    hide BaseInv;
    hide Decided;
    if run == [] {
      NoPieces(s);
    } else {
      var m := FirstStep(s, run);
      KeepsThread(s, run[0], t);
      ThreadStep(s, run[0], t);
      DecidedStays(m, run[1..], t);
    }
  }

  // The step that decides is the thread's own, at the loops.
  lemma DecidingStep(s: Sys, a: Action, t: nat)
    requires BaseInv(s) && Step(s, a).Some? && t in Step(s, a).value.threads && Decided(Step(s, a).value.threads[t]).Some?
    requires t in s.threads ==> Decided(s.threads[t]).None?
    ensures a == Run(t) && t in s.threads && s.threads[t].pc.Body? && s.recv <= s.sent && ThreadOk(s.threads[t])
    ensures Settles(s, Step(s, a).value, t, Decided(Step(s, a).value.threads[t]).value)
  {
    hide Step;
    hide EndsOk;
    hide FreeOk;
    hide Holds;
    hide LocksOk;
    hide BodyStep;
    hide Settles;
    hide Blocks;
    ThreadStep(s, a, t);
    BodyLaw(s, t);
  }

  lemma SettledLater(s: Sys, run: seq<Action>, m: Sys, k: nat, t: nat, r: int)
    requires BaseInv(s) && run != [] && Step(s, run[0]) == Some(m) && BaseInv(m) && SettledAt(m, run[1..], k, t, r)
    ensures SettledAt(s, run, k + 1, t, r)
  {
    hide Step;
    hide BaseInv;
    hide Settles;
    assert run[..k + 1][1..] == run[1..][..k] && run[..k + 1][0] == run[0];
    if t in m.threads { ThreadStep(s, run[0], t); }
  }

  lemma {:induction false} WhenSettled(s: Sys, run: seq<Action>, t: nat, r: int) returns (k: nat)
    requires BaseInv(s) && Runs(s, run).Some? && t in Runs(s, run).value.threads && Decided(Runs(s, run).value.threads[t]) == Some(r)
    requires t in s.threads ==> Decided(s.threads[t]).None?
    ensures SettledAt(s, run, k, t, r)
    decreases |run|
  {
    hide Step;
    hide Runs;
    hide BaseInv;
    hide Decided;
    hide SettledAt;
    hide Settles;
    if run == [] {
      NoPieces(s);
      assert false;
    } else {
      var m := FirstStep(s, run);
      if t in m.threads && Decided(m.threads[t]).Some? {
        DecidedStays(m, run[1..], t);
        DecidingStep(s, run[0], t);
        k := 0;
        SettledNow(s, run, t, r);
      } else {
        k := WhenSettled(m, run[1..], t, r);
        SettledLater(s, run, m, k, t, r);
        k := k + 1;
      }
    }
  }

  lemma SettledNow(s: Sys, run: seq<Action>, t: nat, r: int)
    requires BaseInv(s) && run != [] && run[0] == Run(t) && t in s.threads && s.threads[t].pc.Body? && s.recv <= s.sent && ThreadOk(s.threads[t])
    requires Step(s, Run(t)).Some? && Settles(s, Step(s, Run(t)).value, t, r)
    ensures SettledAt(s, run, 0, t, r)
  {
    hide Step;
    hide BaseInv;
    hide Settles;
    assert run[..0] == [];
  }

  // r against the call's own bytes.
  ghost predicate Fits(role: Role, r: int, put: seq<char>, taken: seq<char>) {
    match role
    case Reader(n) => -1 <= r <= n && |taken| == if r == -1 then 0 else r
    case Writer(bytes) => put <= bytes && r == if put == bytes then |bytes| else -1
    case Closer(_) => r == 0
  }

  /** What every finished call has returned, over all interleavings: there is a step of its own that
      settled it, as Settles says of the state then.  A reader has the bytes it counts, a writer has
      put in all its bytes or returns -1, a closer returns 0.  And all that was accepted, and all that
      was returned, is the calls' own pieces in order. */
  lemma CallReturns(s: Sys, run: seq<Action>, t: nat, r: int)
    requires Initial(s) && (InitialInv(s); Runs(s, run).Some?)
    requires t in Runs(s, run).value.threads && Runs(s, run).value.threads[t].pc == Returned(r)
    ensures BaseInv(s) && exists k: nat :: SettledAt(s, run, k, t, r)
    ensures Fits(Runs(s, run).value.threads[t].role, r, Own(Puts(s, run), t), Own(Takes(s, run), t))
    ensures Runs(s, run).value.sent == Flat(Puts(s, run)) && Runs(s, run).value.recv == Flat(Takes(s, run))
  {
    hide Runs;
    hide Puts;
    hide Takes;
    hide Own;
    hide Flat;
    hide SettledAt;
    hide BaseInv;
    InitialInv(s);
    var k := WhenSettled(s, run, t, r);
    PiecesMakeAll(s, run);
    var th := Runs(s, run).value.threads[t];
    match th.role {
      case Reader(_) => ReaderPieces(s, run, t);
      case Writer(bytes) => WriterPieces(s, run, t); assert th.i == |bytes| <==> bytes[0..th.i] == bytes;
      case Closer(_) => CloserSettled(s, run, k, t, r);
    }
  }

  lemma CloserSettled(s: Sys, run: seq<Action>, k: nat, t: nat, r: int)
    requires BaseInv(s) && SettledAt(s, run, k, t, r) && Runs(s, run).Some?
    requires t in Runs(s, run).value.threads && Runs(s, run).value.threads[t].role.Closer?
    ensures r == 0
  {
    hide Step;
    hide BaseInv;
    hide Runs;
    RunsOn(s, run, k);
    StaysThere(Runs(s, run[..k]).value, run[k..], t);
  }

  lemma {:induction false} RunsOn(s: Sys, run: seq<Action>, k: nat)
    requires BaseInv(s) && Runs(s, run).Some? && k <= |run|
    ensures Runs(s, run[..k]).Some? && Runs(Runs(s, run[..k]).value, run[k..]) == Runs(s, run)
    decreases k
  {
    hide Step;
    hide BaseInv;
    if k == 0 {
      assert run[..0] == [] && run[0..] == run;
    } else {
      var m := FirstStep(s, run);
      assert run[..k][1..] == run[1..][..k - 1] && run[..k][0] == run[0] && run[1..][k - 1..] == run[k..];
      RunsOn(m, run[1..], k - 1);
    }
  }
}
