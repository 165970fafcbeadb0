/** What the server of P8_Distributed_Systems guarantees on its own, against any stream of
    packets: numbers may rewind, two requests may share a number, clients may misbehave. */
module RpcAnyPackets {
  import opened RpcServer
  import opened Wrappers
  import opened RpcSystem

  datatype Event = Packet(r: Req) | MainRuns | ThreadRuns(th: Thread)

  function ServerStep(s: Server, ev: Event): Option<Server>
  {
    match ev
    case Packet(r) => Receive(s, r)
    case MainRuns => if s.main.Ready? || !MainOk(s) then None else Some(MainStep(s).0)
    case ThreadRuns(th) => if !IdleOk(s, th) then None else Some(ThreadStep(s, th).0)
  }

  function ServerRun(s: Server, run: seq<Event>): Option<Server>
    decreases |run|
  {
    if run == [] then Some(s)
    else match ServerStep(s, run[0]) case None => None case Some(s1) => ServerRun(s1, run[1..])
  }

  function FreshServer(): Server { Server(EmptyTable(), EmptyStore(), Ready, multiset{}, []) }

  /** The gets and puts of one client run in strictly increasing number order. */
  ghost predicate Rising(log: seq<Exec>) {
    forall i, j | 0 <= i < j < |log| && log[i].r.client == log[j].r.client && log[i].r.opcode != 0 && log[j].r.opcode != 0 ::
      log[i].r.seqNum < log[j].r.seqNum
  }

  // Slot i belongs to the client of r and has reached the number of r.
  ghost predicate Reached(t: Table, i: nat, r: Req) {
    i < TABLESIZE && ReqOk(r) && t[i].client == r.client && r.seqNum <= t[i].seqNum
  }

  ghost predicate Covered(t: Table, r: Req) { exists i :: Reached(t, i, r) }

  ghost predicate LogReached(s: Server) {
    forall e | 0 <= e < |s.log| :: Covered(s.table, s.log[e].r)
  }

  // Nothing logged has the id of r; nothing logged blocks r if it is a get or put.
  ghost predicate Unrun(log: seq<Exec>, r: Req) {
    forall e | 0 <= e < |log| :: Before(log[e].r, r)
  }

  ghost predicate Before(q: Req, r: Req) {
    && !SameId(q, r)
    && (q.opcode != 0 && r.opcode != 0 && q.client == r.client ==> q.seqNum < r.seqNum)
  }

  ghost predicate SleepersOk(s: Server) {
    && (forall th | th in s.threads && th.Sleeper? ::
          Reached(s.table, th.i, th.r) && th.r.opcode == 0 && s.threads[th] == 1 && Unrun(s.log, th.r))
    && (forall th, q | th in s.threads && q in s.threads && th.Sleeper? && q.Sleeper? && th != q :: !SameId(th.r, q.r))
  }

  ghost predicate RunnerOk(s: Server) {
    && (!s.main.Ready? ==> ReqOk(s.main.r) && s.main.r.opcode != 0 && (s.main.Spawned? || Reached(s.table, s.main.i, s.main.r)))
    && (s.main.Claimed? ==>
          && Unrun(s.log, s.main.r)
          && forall th | th in s.threads && th.Sleeper? :: !SameId(th.r, s.main.r))
  }

  // No thread's request has the id of a free slot, and the idle threads are those of idles.
  ghost predicate ThreadsOk(s: Server) { forall th | th in s.threads :: ReqOk(th.r) && th.r.opcode == 0 }

  ghost predicate ServerInv(s: Server) {
    TableOk(s.table) && Rising(s.log) && AtMostOnce(s.log) && LogReached(s) && SleepersOk(s) && RunnerOk(s) && ThreadsOk(s)
  }

  // A packet above its slot's number comes after all that ran and all that sleeps.
  lemma NewIsAfter(s: Server, r: Req, i: nat, q: Req)
    requires TableOk(s.table) && ReqOk(r) && Slot(s.table, r.client) < TABLESIZE && Compare(s.table, r).New?
    requires Reached(s.table, i, q)
    ensures Before(q, r) && !SameId(r, q)
  {
    if q.client == r.client { SlotFindsClient(s.table, r.client, i); }
  }

  lemma ClaimReaches(s: Server, r: Req, i: nat, q: Req)
    requires TableOk(s.table) && ReqOk(r) && Slot(s.table, r.client) < TABLESIZE && Reached(s.table, i, q)
    ensures Reached(Claim(s.table, r), i, q)
  {
    ClaimKeepsTable(s.table, r);
  }

  /** The thread of r looks it up. */
  ghost predicate Looks(s: Server, r: Req, s1: Server) {
    && ReqOk(r) && Slot(s.table, r.client) < TABLESIZE
    && if r.opcode == 0 then Starter(r) in s.threads && s1 == Enroll(s.(threads := s.threads - multiset{Starter(r)}), r)
       else s.main == Spawned(r) && s1 == Enroll(s.(main := Ready), r)
  }

  lemma LooksShape(s: Server, r: Req, s1: Server)
    requires Looks(s, r, s1)
    ensures ReqOk(r) && Slot(s.table, r.client) < TABLESIZE && s1.table == Claim(s.table, r) && s1.log == s.log
    ensures r.opcode == 0 ==> s1.main == s.main
  {
  }

  lemma LooksLog(s: Server, r: Req, s1: Server)
    requires ServerInv(s) && Looks(s, r, s1)
    ensures LogReached(s1) && (Compare(s.table, r).New? ==> Unrun(s.log, r))
  {
    hide TableOk;
    hide Slot;
    hide Claim;
    hide Reached;
    hide Rising;
    hide AtMostOnce;
    hide RunnerOk;
    hide SleepersOk;
    hide Looks;
    LooksShape(s, r, s1);
    forall e | 0 <= e < |s.log|
      ensures Covered(s1.table, s.log[e].r)
      ensures Compare(s.table, r).New? ==> Before(s.log[e].r, r)
    {
      assert Covered(s.table, s.log[e].r);
      var i :| Reached(s.table, i, s.log[e].r);
      ClaimReaches(s, r, i, s.log[e].r);
      if Compare(s.table, r).New? { NewIsAfter(s, r, i, s.log[e].r); }
    }
  }

  // The sleepers are the old ones and perhaps one for r.
  lemma LooksThreads(s: Server, r: Req, s1: Server, th: Thread)
    requires Looks(s, r, s1) && th in s1.threads && th.Sleeper?
    ensures th in s.threads || (th == Sleeper(Slot(s.table, r.client), r) && Compare(s.table, r).New? && r.opcode == 0)
    ensures s1.threads[th] == s.threads[th] + if r.opcode == 0 && Compare(s.table, r).New? && th == Sleeper(Slot(s.table, r.client), r) then 1 else 0
  {
    hide Slot;
    hide Compare;
    hide Claim;
  }

  lemma LooksSleepers(s: Server, r: Req, s1: Server)
    requires ServerInv(s) && Looks(s, r, s1) && (Compare(s.table, r).New? ==> Unrun(s.log, r))
    ensures SleepersOk(s1)
  {
    hide TableOk;
    hide Slot;
    hide Claim;
    hide Compare;
    hide Reached;
    hide Rising;
    hide AtMostOnce;
    hide LogReached;
    hide Unrun;
    hide Looks;
    hide RunnerOk;
    LooksShape(s, r, s1);
    forall th | th in s.threads && th.Sleeper?
      ensures Reached(s1.table, th.i, th.r)
      ensures Compare(s.table, r).New? ==> !SameId(th.r, r)
    {
      ClaimReaches(s, r, th.i, th.r);
      if Compare(s.table, r).New? { NewIsAfter(s, r, th.i, th.r); }
    }
    if !Compare(s.table, r).Old? { ClaimOwn(s, r); }
    forall th | th in s1.threads && th.Sleeper?
      ensures Reached(s1.table, th.i, th.r) && th.r.opcode == 0 && s1.threads[th] == 1 && Unrun(s1.log, th.r)
      ensures th in s.threads || (th.r == r && Compare(s.table, r).New? && th == Sleeper(Slot(s.table, r.client), r))
    {
      LooksThreads(s, r, s1, th);
    }
  }

  lemma LooksRunner(s: Server, r: Req, s1: Server)
    requires ServerInv(s) && Looks(s, r, s1) && (Compare(s.table, r).New? ==> Unrun(s.log, r))
    ensures RunnerOk(s1)
  {
    hide TableOk;
    hide Slot;
    hide Claim;
    hide Compare;
    hide Reached;
    hide Rising;
    hide AtMostOnce;
    hide LogReached;
    hide Unrun;
    LooksShape(s, r, s1);
    if !s.main.Ready? && !s.main.Spawned? {
      ClaimReaches(s, r, s.main.i, s.main.r);
      if Compare(s.table, r).New? { NewIsAfter(s, r, s.main.i, s.main.r); }
    }
    forall th | th in s.threads && th.Sleeper? ensures Compare(s.table, r).New? ==> !SameId(th.r, r) {
      if Compare(s.table, r).New? { NewIsAfter(s, r, th.i, th.r); }
    }
    if !Compare(s.table, r).Old? { ClaimOwn(s, r); }
  }

  lemma ClaimOwn(s: Server, r: Req)
    requires TableOk(s.table) && ReqOk(r) && Slot(s.table, r.client) < TABLESIZE && !Compare(s.table, r).Old?
    ensures Reached(Claim(s.table, r), Slot(s.table, r.client), r)
  {
  }

  lemma LooksInv(s: Server, r: Req, s1: Server)
    requires ServerInv(s) && Looks(s, r, s1)
    ensures ServerInv(s1)
  {
    hide TableOk;
    hide Rising;
    hide AtMostOnce;
    hide LogReached;
    hide SleepersOk;
    hide RunnerOk;
    hide Claim;
    hide Compare;
    hide Slot;
    LooksShape(s, r, s1);
    ClaimKeepsTable(s.table, r);
    LooksLog(s, r, s1);
    LooksSleepers(s, r, s1);
    LooksRunner(s, r, s1);
  }

  lemma PacketInv(s: Server, r: Req)
    requires ServerInv(s) && ReqOk(r) && Receive(s, r).Some?
    ensures ServerInv(Receive(s, r).value)
  {
    hide TableOk;
    hide Rising;
    hide AtMostOnce;
    hide Unrun;
    hide Reached;
  }

  // The log grows by a request nothing logged blocks.
  lemma LogGrows(s: Server, s1: Server, e: Exec, i: nat)
    requires Rising(s.log) && AtMostOnce(s.log) && LogReached(s) && Unrun(s.log, e.r) && Reached(s.table, i, e.r)
    requires s1.log == s.log + [e] && SameIds(s.table, s1.table)
    ensures Rising(s1.log) && AtMostOnce(s1.log) && LogReached(s1)
  {
    forall k | 0 <= k < |s1.log| ensures Covered(s1.table, s1.log[k].r) {
      if k < |s.log| {
        assert s1.log[k] == s.log[k];
        assert Covered(s.table, s.log[k].r);
      var j :| Reached(s.table, j, s.log[k].r);
        assert Reached(s1.table, j, s1.log[k].r);
      } else {
        assert Reached(s1.table, i, s1.log[k].r);
      }
    }
  }

  // Setting done or a result on a used slot.
  lemma MarkKeeps(s: Server, s1: Server, i: nat)
    requires TableOk(s.table) && LogReached(s) && i < TABLESIZE && s.table[i].client != FREE && s1.log == s.log
    requires s1.table == s.table[i := s1.table[i]] && SameIds(s.table, s1.table)
    ensures TableOk(s1.table) && LogReached(s1)
  {
    forall k | 0 <= k < |s1.log| ensures Covered(s1.table, s1.log[k].r) {
      assert Covered(s.table, s.log[k].r);
      var j :| Reached(s.table, j, s.log[k].r);
      assert Reached(s1.table, j, s1.log[k].r);
    }
  }

  // Sleepers other than the one that ran.
  lemma SleepersKeep(s: Server, s1: Server, r: Req)
    requires SleepersOk(s) && SameIds(s.table, s1.table)
    requires s1.log == s.log || exists v :: s1.log == s.log + [Exec(r, v)]
    requires forall th | th in s1.threads && th.Sleeper? ::
      th in s.threads && s1.threads[th] == s.threads[th] && (s1.log != s.log ==> Before(r, th.r))
    ensures SleepersOk(s1)
  {
    forall th | th in s1.threads && th.Sleeper? ensures Unrun(s1.log, th.r) {
      forall e | 0 <= e < |s1.log| ensures Before(s1.log[e].r, th.r) {
        if e < |s.log| { assert Before(s.log[e].r, th.r); }
      }
    }
  }

  lemma MainRunsInv(s: Server)
    requires ServerInv(s) && !s.main.Ready? && MainOk(s)
    ensures ServerInv(MainStep(s).0)
  {
    hide Rising;
    hide AtMostOnce;
    hide LogReached;
    hide TableOk;
    hide SleepersOk;
    hide Unrun;
    hide ExecVal;
    hide ExecStore;
    hide Enroll;
    var s1 := MainStep(s).0;
    if s.main.Spawned? {
      LooksInv(s, s.main.r, s1);
    } else if s.main.Claimed? {
      var e := Exec(s.main.r, ExecVal(s.store, s.main.r));
      LogGrows(s, s1, e, s.main.i);
      assert s1.log == s.log + [e];
      MainBefore(s);
      SleepersKeep(s, s1, s.main.r);
    } else {
      MarkKeeps(s, s1, s.main.i);
      SleepersKeep(s, s1, s.main.r);
    }
  }

  lemma MainBefore(s: Server)
    requires SleepersOk(s) && RunnerOk(s) && s.main.Claimed?
    ensures forall th | th in s.threads && th.Sleeper? :: Before(s.main.r, th.r)
  {
    hide Unrun;
    hide Reached;
  }

  lemma WakeBefore(s: Server, th: Thread)
    requires SleepersOk(s) && th in s.threads && th.Sleeper?
    ensures forall q | q in s.threads - multiset{th} && q.Sleeper? :: q != th && Before(th.r, q.r) && q in s.threads
    ensures s.threads[th] == 1 && Unrun(s.log, th.r) && Reached(s.table, th.i, th.r) && th.r.opcode == 0
  {
    hide Unrun;
    hide Reached;
  }

  lemma ThreadRunsInv(s: Server, th: Thread)
    requires ServerInv(s) && IdleOk(s, th)
    ensures ServerInv(ThreadStep(s, th).0)
  {
    hide Rising;
    hide AtMostOnce;
    hide LogReached;
    hide TableOk;
    hide SleepersOk;
    hide RunnerOk;
    hide Unrun;
    hide Enroll;
    var s1 := ThreadStep(s, th).0;
    if th.Starter? {
      LooksInv(s, th.r, s1);
    } else if th.Sleeper? {
      WakeBefore(s, th);
      MarkKeeps(s, s.(table := s1.table), th.i);
      LogGrows(s, s1, Exec(th.r, -1), th.i);
      assert s1.log == s.log + [Exec(th.r, -1)];
      SleepersKeep(s, s1, th.r);
      RunnerKeep(s, s1, th);
    } else {
      assert s1.table == s.table && s1.log == s.log;
      MarkKeepsNone(s, s1);
    }
  }

  lemma RunnerKeep(s: Server, s1: Server, th: Thread)
    requires SleepersOk(s) && RunnerOk(s) && th in s.threads && th.Sleeper?
    requires s1.main == s.main && s1.threads == s.threads - multiset{th} && SameIds(s.table, s1.table)
    requires s1.log == s.log + [Exec(th.r, -1)]
    ensures RunnerOk(s1)
  {
    assert th.r.opcode == 0;
    if s.main.Claimed? {
      forall e | 0 <= e < |s1.log| ensures Before(s1.log[e].r, s.main.r) {
        if e < |s.log| { assert Before(s.log[e].r, s.main.r); }
      }
    }
  }

  lemma MarkKeepsNone(s: Server, s1: Server)
    requires SleepersOk(s) && RunnerOk(s) && LogReached(s)
    requires s1.table == s.table && s1.log == s.log && s1.main == s.main && s1.threads <= s.threads
    requires forall th | th in s1.threads && th.Sleeper? :: s1.threads[th] == s.threads[th]
    ensures SleepersOk(s1) && RunnerOk(s1) && LogReached(s1)
  {
    hide Unrun;
    hide Reached;
  }

  /** The packets come from clients with these ids. */
  predicate From(run: seq<Event>, ids: set<int>) { forall k | 0 <= k < |run| && run[k].Packet? :: run[k].r.client in ids }

  lemma {:induction false} AnyRunInv(s: Server, run: seq<Event>, ids: set<int>)
    requires ServerInv(s) && ServerRun(s, run).Some? && From(run, ids) && FREE !in ids
    ensures ServerInv(ServerRun(s, run).value)
    decreases |run|
  {
    hide ServerInv;
    if run != [] {
      match run[0] {
        case Packet(r) => assert r.client in ids; PacketInv(s, r);
        case MainRuns => MainRunsInv(s);
        case ThreadRuns(th) => ThreadRunsInv(s, th);
      }
      AnyRunInv(ServerStep(s, run[0]).value, run[1..], ids);
    }
  }

  /** At most once, whatever the packets, as long as none has the id -1 of a free slot: no request
      is executed twice, the gets and puts of a client run in increasing number order, and
      occupied slots stay a prefix of distinct clients, so the scan's early break never misses a
      client that has a slot. */
  lemma AtMostOnceAlways(run: seq<Event>, ids: set<int>, c: int, i: nat)
    requires ServerRun(FreshServer(), run).Some? && From(run, ids) && FREE !in ids && c != FREE && i < TABLESIZE
    ensures var s := ServerRun(FreshServer(), run).value;
      && AtMostOnce(s.log) && Rising(s.log) && TableOk(s.table)
      && (s.table[i].client == c ==> Slot(s.table, c) == i)
  {
    hide ServerRun;
    assert ServerInv(FreshServer());
    AnyRunInv(FreshServer(), run, ids);
    var s := ServerRun(FreshServer(), run).value;
    if s.table[i].client == c { SlotFindsClient(s.table, c, i); }
  }

  // ---------------------------------------------------------------- the id of a free slot

  function FreeReq(): Req { Req(2, FREE, 0, 0, 0, 0) }

  // Of a number below all: it only takes a slot.
  function OldReq(c: int): Req { Req(2, c, -2, 0, 0, 0) }

  /** Client -1 puts; its slot looks free and another client takes it; the same put comes again. */
  function Twice(c: int): seq<Event> {
    [Packet(FreeReq()), MainRuns, MainRuns, MainRuns, MainRuns] + ([Packet(OldReq(c)), MainRuns] + [Packet(FreeReq()), MainRuns, MainRuns])
  }

  lemma {:induction false} RunThen(s: Server, a: seq<Event>, b: seq<Event>)
    requires ServerRun(s, a).Some?
    ensures ServerRun(s, a + b) == ServerRun(ServerRun(s, a).value, b)
    decreases |a|
  {
    hide ServerStep;
    if a == [] {
      assert a + b == b;
    } else {
      assert (a + b)[1..] == a[1..] + b;
      RunThen(ServerStep(s, a[0]).value, a[1..], b);
    }
  }

  // One put, from its packet to the end.
  lemma PutRuns(s: Server, r: Req, i: nat)
    requires s.main.Ready? && r.opcode == 2 && r.key == 0 && r.value == 0 && i < TABLESIZE && i == Slot(s.table, r.client) && s.table[i].seqNum < r.seqNum
    ensures var t := ServerRun(s, [Packet(r), MainRuns, MainRuns]);
      t.Some? && t.value.log == s.log + [Exec(r, 0)]
    ensures var t := ServerRun(s, [Packet(r), MainRuns, MainRuns, MainRuns, MainRuns]);
      && t.Some? && t.value.main.Ready? && t.value.log == s.log + [Exec(r, 0)]
      && t.value.table == s.table[i := Entry(r.client, r.seqNum, true, 0)]
  {
    hide Slot;
    var s1 := s.(main := Spawned(r));
    var s2 := s.(main := Claimed(i, r), table := Claim(s.table, r));
    var s3 := s2.(main := Ran(i, r, 0), store := ExecStore(s.store, r), log := s.log + [Exec(r, 0)]);
    var s4 := s3.(main := Marked(i, r, 0), table := s3.table[i := s3.table[i].(done := true)]);
    var s5 := s4.(main := Ready, table := s4.table[i := s4.table[i].(result := 0)]);
    assert ServerStep(s, Packet(r)) == Some(s1) && ServerStep(s1, MainRuns) == Some(s2) && ServerStep(s2, MainRuns) == Some(s3);
    assert ServerStep(s3, MainRuns) == Some(s4) && ServerStep(s4, MainRuns) == Some(s5);
    assert s5.table == s.table[i := Entry(r.client, r.seqNum, true, 0)];
    RunOne(s4, MainRuns, [], s5);
    RunOne(s3, MainRuns, [MainRuns], s4);
    RunOne(s2, MainRuns, [MainRuns, MainRuns], s3);
    RunOne(s1, MainRuns, [MainRuns, MainRuns, MainRuns], s2);
    RunOne(s, Packet(r), [MainRuns, MainRuns, MainRuns, MainRuns], s1);
    RunOne(s2, MainRuns, [], s3);
    RunOne(s1, MainRuns, [MainRuns], s2);
    RunOne(s, Packet(r), [MainRuns, MainRuns], s1);
  }

  lemma RunOne(s: Server, ev: Event, rest: seq<Event>, s1: Server)
    requires ServerStep(s, ev) == Some(s1)
    ensures ServerRun(s, [ev] + rest) == ServerRun(s1, rest)
  {
    hide ServerStep;
    assert ([ev] + rest)[1..] == rest;
  }

  lemma OldTakesSlot(s: Server, c: int)
    requires s.main.Ready? && c != FREE && s.table[0].client == FREE && s.table[0].seqNum >= 0
    ensures ServerRun(s, [Packet(OldReq(c)), MainRuns]) == Some(s.(table := s.table[0 := s.table[0].(client := c)]))
  {
    var r := OldReq(c);
    assert Slot(s.table, c) == 0;
    var s1 := s.(main := Spawned(r));
    var s2 := s.(table := s.table[0 := s.table[0].(client := c)]);
    assert ServerStep(s, Packet(r)) == Some(s1) && ServerStep(s1, MainRuns) == Some(s2);
    RunOne(s1, MainRuns, [], s2);
    RunOne(s, Packet(r), [MainRuns], s1);
  }

  lemma TwiceRuns(c: int)
    requires c != FREE
    ensures var t := ServerRun(FreshServer(), Twice(c)); t.Some? && !AtMostOnce(t.value.log)
  {
    hide ServerRun;
    var s, r := FreshServer(), FreeReq();
    var put5, put3 := [Packet(r), MainRuns, MainRuns, MainRuns, MainRuns], [Packet(r), MainRuns, MainRuns];
    var old2 := [Packet(OldReq(c)), MainRuns];
    assert Slot(s.table, FREE) == 0;
    PutRuns(s, r, 0);
    var s1 := ServerRun(s, put5).value;
    OldTakesSlot(s1, c);
    var s2 := ServerRun(s1, old2).value;
    assert s2.table[1] == Entry(FREE, -1, false, -1) && s2.table[0].client == c;
    assert Slot(s2.table, FREE) == 1;
    PutRuns(s2, r, 1);
    RunThen(s1, old2, put3);
    RunThen(s, put5, old2 + put3);
    var t := ServerRun(s2, put3).value;
    assert t.log == [] + [Exec(r, 0)] + [Exec(r, 0)];
    assert t.log[0].r == r && t.log[1].r == r;
  }

  /** Exactly the id -1 breaks it: requests are executed at most once in every run with packets
      of these clients, if and only if -1 is not one of them. */
  lemma AtMostOnceExact(ids: set<int>, c: int)
    requires c in ids && c != FREE
    ensures (forall run :: From(run, ids) && ServerRun(FreshServer(), run).Some? ==> AtMostOnce(ServerRun(FreshServer(), run).value.log))
            <==> FREE !in ids
  {
    hide ServerRun;
    hide AtMostOnce;
    if FREE in ids {
      TwiceRuns(c);
      assert From(Twice(c), ids);
    } else {
      forall run | From(run, ids) && ServerRun(FreshServer(), run).Some?
        ensures AtMostOnce(ServerRun(FreshServer(), run).value.log)
      {
        AtMostOnceAlways(run, ids, c, 0);
      }
    }
  }
}
