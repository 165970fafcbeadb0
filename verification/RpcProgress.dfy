/** That no call of P8_Distributed_Systems is ever stuck: from every state that can be reached, the
    server and a network that delivers can bring it to its return. */
module RpcProgress {
  import opened RpcServer
  import opened Wrappers
  import opened RpcSystem

  // Somebody works on slot i.
  ghost predicate AtWork(s: Server, i: nat) {
    (Working(s.main) && s.main.i == i) || exists th :: th in s.threads && th.Sleeper? && th.i == i
  }

  /** A request that has been claimed and is not done is being worked on. */
  ghost predicate NoneForgotten(s: Server) {
    && (forall i: nat | i < TABLESIZE && s.table[i].seqNum >= 0 && !s.table[i].done :: AtWork(s, i))
    && (s.main.Marked? && s.main.i < TABLESIZE ==> s.table[s.main.i].done)
  }

  lemma EnrollForgets(s: Sys, r: Req, s1: Sys)
    requires SysInv(s) && NoneForgotten(s.server) && r in s.reqs && Enrolls(s, r, s1)
    ensures NoneForgotten(s1.server)
  {
    hide SysInv;
    hide Claim;
    hide Compare;
    hide Slot;
    EnrollShape(s, r, s1);
    ClaimAt(s, r);
    if Compare(s.server.table, r).New? { NewNotWorking(s, r); }
    var k := Slot(s.server.table, r.client);
    forall i: nat | i < TABLESIZE && s1.server.table[i].seqNum >= 0 && !s1.server.table[i].done ensures AtWork(s1.server, i) {
      if i == k && Compare(s.server.table, r).New? {
        if r.opcode == 0 { assert Sleeper(k, r) in s1.server.threads; }
      } else {
        assert AtWork(s.server, i);
        if !(Working(s.server.main) && s.server.main.i == i) {
          var th :| th in s.server.threads && th.Sleeper? && th.i == i;
          assert th in s1.server.threads;
        }
      }
    }
  }

  lemma ClaimAt(s: Sys, r: Req)
    requires SysInv(s) && r in s.reqs && Slot(s.server.table, r.client) < TABLESIZE
    ensures var t, t1, k := s.server.table, Claim(s.server.table, r), Slot(s.server.table, r.client);
      && (forall i | 0 <= i < TABLESIZE && (i != k || !Compare(t, r).New?) :: t1[i].seqNum == t[i].seqNum && t1[i].done == t[i].done && t1[i].result == t[i].result)
      && t1[k].client == r.client && (Compare(t, r).New? ==> t1[k].seqNum == r.seqNum)
  {
  }

  lemma StepForgets(s: Sys, a: Action)
    requires SysInv(s) && NoneForgotten(s.server) && Step(s, a).Some?
    ensures NoneForgotten(Step(s, a).value.server)
  {
    hide SysInv;
    var s1 := Step(s, a).value;
    match a
    case Main =>
      if s.server.main.Spawned? {
        SpawnedReq(s);
        hide Enroll;
        assert Enrolls(s, s.server.main.r, s1);
        EnrollForgets(s, s.server.main.r, s1);
      } else {
        MainForgets(s.server);
      }
    case Thread(th) =>
      if th.Starter? {
        StarterReq(s, th);
        assert Enrolls(s, th.r, s1);
        EnrollForgets(s, th.r, s1);
      } else {
        ThreadForgets(s.server, th);
      }
    case Deliver(r) => DeliverForgets(s.server, r);
    case _ =>
  }

  lemma MainForgets(s: Server)
    requires NoneForgotten(s) && !s.main.Ready? && !s.main.Spawned? && MainOk(s)
    ensures NoneForgotten(MainStep(s).0)
  {
    var s1 := MainStep(s).0;
    forall i: nat | i < TABLESIZE && s1.table[i].seqNum >= 0 && !s1.table[i].done ensures AtWork(s1, i) { assert AtWork(s, i); }
  }

  lemma ThreadForgets(s: Server, th: Thread)
    requires NoneForgotten(s) && IdleOk(s, th) && !th.Starter?
    ensures NoneForgotten(ThreadStep(s, th).0)
  {
    var s1 := ThreadStep(s, th).0;
    forall i: nat | i < TABLESIZE && s1.table[i].seqNum >= 0 && !s1.table[i].done ensures AtWork(s1, i) {
      assert AtWork(s, i);
      if q :| q in s.threads && q.Sleeper? && q.i == i { assert q in s1.threads; }
    }
  }

  lemma DeliverForgets(s: Server, r: Req)
    requires NoneForgotten(s) && Receive(s, r).Some?
    ensures NoneForgotten(Receive(s, r).value)
  {
    var s1 := Receive(s, r).value;
    forall i: nat | i < TABLESIZE && s1.table[i].seqNum >= 0 && !s1.table[i].done ensures AtWork(s1, i) {
      assert AtWork(s, i);
      if q :| q in s.threads && q.Sleeper? && q.i == i { assert q in s1.threads; }
    }
  }

  lemma {:induction false} RunForgets(s: Sys, run: seq<Action>)
    requires SysInv(s) && NoneForgotten(s.server) && Run(s, run).Some?
    ensures SysInv(Run(s, run).value) && NoneForgotten(Run(s, run).value.server)
    decreases |run|
  {
    hide SysInv;
    hide NoneForgotten;
    hide Step;
    if run != [] {
      StepInv(s, run[0]);
      StepForgets(s, run[0]);
      RunForgets(Step(s, run[0]).value, run[1..]);
    }
  }

  // ---------------------------------------------------------------- going on

  ghost predicate Good(s: Sys) { SysInv(s) && NoneForgotten(s.server) }

  // s1 comes after s by steps of the server alone.
  ghost predicate Later(s: Sys, more: seq<Action>, s1: Sys) {
    Run(s, more) == Some(s1) && Good(s1) && s1.clients == s.clients && s1.hist == s.hist && s1.reqs == s.reqs
  }

  lemma ServerStep(s: Sys, a: Action, s1: Sys)
    requires Good(s) && Step(s, a) == Some(s1) && (a.Main? || a.Thread? || a.Deliver?)
    ensures Later(s, [a], s1)
  {
    hide SysInv;
    hide NoneForgotten;
    StepInv(s, a);
    StepForgets(s, a);
    assert [a][1..] == [];
    QuietStep(s, a, s1);
    assert Run(s1, []) == Some(s1);
  }

  lemma QuietStep(s: Sys, a: Action, s1: Sys)
    requires Step(s, a) == Some(s1) && (a.Main? || a.Thread? || a.Deliver?)
    ensures s1.clients == s.clients && s1.hist == s.hist && s1.reqs == s.reqs
  {
  }

  lemma {:induction false} RunThen(s: Sys, a: seq<Action>, b: seq<Action>)
    requires Run(s, a).Some?
    ensures Run(s, a + b) == Run(Run(s, a).value, b)
    decreases |a|
  {
    hide Step;
    if a == [] {
      assert a + b == b;
    } else {
      assert (a + b)[1..] == a[1..] + b;
      RunThen(Step(s, a[0]).value, a[1..], b);
    }
  }

  lemma LaterThen(s: Sys, a: seq<Action>, m: Sys, b: seq<Action>, s1: Sys)
    requires Later(s, a, m) && Later(m, b, s1)
    ensures Later(s, a + b, s1)
  {
    hide Good;
    hide Run;
    RunThen(s, a, b);
  }

  lemma LaterSelf(s: Sys)
    requires Good(s)
    ensures Later(s, [], s)
  {
  }

  function Rank(m: Main): nat {
    match m case Ready => 0 case Spawned(_) => 4 case Claimed(_, _) => 3 case Ran(_, _, _) => 2 case Marked(_, _, _) => 1 case Answering(_, _) => 1
  }

  lemma MainCan(s: Sys)
    requires SysInv(s) && !s.server.main.Ready? && Defined(s.server.main.r)
    ensures Step(s, Main).Some?
    ensures var m := Step(s, Main).value.server.main; Rank(m) < Rank(s.server.main) && (!m.Ready? ==> m.r == s.server.main.r)
  {
    hide ReqsOk;
    hide ClientsOk;
    hide LogInv;
    hide TableInv;
    hide ThreadsInv;
    hide FbsOk;
    hide HistOk;
    if s.server.main.Spawned? { SlotForRequest(s, s.server.main.r); }
  }

  /** main's thread comes to its end. */
  lemma {:induction false} Drain(s: Sys) returns (more: seq<Action>, s1: Sys)
    requires Good(s) && (!s.server.main.Ready? ==> Defined(s.server.main.r))
    ensures Later(s, more, s1) && s1.server.main.Ready?
    decreases Rank(s.server.main)
  {
    hide Step;
    hide SysInv;
    hide NoneForgotten;
    if s.server.main.Ready? {
      more, s1 := [], s;
      LaterSelf(s);
    } else {
      MainCan(s);
      var m := Step(s, Main).value;
      ServerStep(s, Main, m);
      var rest;
      rest, s1 := Drain(m);
      more := [Main] + rest;
      LaterThen(s, [Main], m, rest, s1);
    }
  }

  // ---------------------------------------------------------------- the request is done

  /** The slot of the client of r has the number of r, done. */
  ghost predicate Stored(s: Server, r: Req) {
    var k := Slot(s.table, r.client);
    k < TABLESIZE && s.table[k].client == r.client && s.table[k].seqNum == r.seqNum && s.table[k].done
  }

  // r is the request that its client is waiting for.
  ghost predicate Awaited(s: Sys, r: Req) {
    && r in s.reqs && r.client in s.clients && s.clients[r.client].seqNum == r.seqNum
    && s.clients[r.client].pending.Some? && s.clients[r.client].pending.value.0 == r
  }

  /** What the slot can hold when a request that is not done comes: an older number, or that
      number with its idle asleep. */
  lemma NotStored(s: Sys, r: Req)
    requires Good(s) && s.server.main.Ready? && Awaited(s, r) && !Stored(s.server, r)
    ensures Slot(s.server.table, r.client) < TABLESIZE
    ensures Compare(s.server.table, r).New? ||
            (r.opcode == 0 && Sleeper(Slot(s.server.table, r.client), r) in s.server.threads
             && s.server.table[Slot(s.server.table, r.client)].client == r.client && s.server.table[Slot(s.server.table, r.client)].seqNum == r.seqNum)
  {
    hide LogInv;
    hide FbsOk;
    hide HistOk;
    SlotForRequest(s, r);
    assert Issued(s, r);
    var k := Slot(s.server.table, r.client);
    if !Compare(s.server.table, r).New? {
      assert AtWork(s.server, k);
      var th :| th in s.server.threads && th.Sleeper? && th.i == k;
      assert ThreadOk(s, th);
      assert SameId(th.r, r);
    }
  }

  lemma ClaimNew(t: Table, r: Req)
    requires TableOk(t) && ReqOk(r) && Slot(t, r.client) < TABLESIZE && Compare(t, r).New?
    ensures var k := Slot(t, r.client);
      Claim(t, r)[k].client == r.client && Claim(t, r)[k].seqNum == r.seqNum && Slot(Claim(t, r), r.client) == k
  {
    ClaimKeepsTable(t, r);
  }

  // Marking and storing do not move the slot.
  lemma SlotStays(t: Table, t1: Table, c: int)
    requires TableOk(t) && SameIds(t, t1) && c != FREE && Slot(t, c) < TABLESIZE && t[Slot(t, c)].client == c
    ensures Slot(t1, c) == Slot(t, c)
  {
    var a, b := Slot(t, c), Slot(t1, c);
    assert t1[a].client == c;
    var j := if b < TABLESIZE then b else 0;
    assert t[j].client == t1[j].client;
  }

  lemma TableFacts(s: Sys, r: Req)
    requires SysInv(s) && r in s.reqs
    ensures TableOk(s.server.table) && ReqOk(r)
  {
    assert Issued(s, r);
  }

  /** A get or put that is not done gets done: main serves it from its packet to the end. */
  lemma ServeIt(s: Sys, r: Req) returns (more: seq<Action>, s1: Sys)
    requires Good(s) && s.server.main.Ready? && Awaited(s, r) && Defined(r) && r.opcode != 0 && !Stored(s.server, r)
    ensures Later(s, more, s1) && s1.server.main.Ready? && Stored(s1.server, r)
  {
    hide SysInv;
    hide NoneForgotten;
    hide Later;
    hide Slot;
    hide Compare;
    NotStored(s, r);
    TableFacts(s, r);
    ClaimNew(s.server.table, r);
    var k := Slot(s.server.table, r.client);
    var s2 := s.(server := s.server.(main := Spawned(r)));
    var s3 := s.(server := s.server.(main := Claimed(k, r), table := Claim(s.server.table, r)));
    ServerStep(s, Deliver(r), s2);
    GoodOf(s, [Deliver(r)], s2);
    assert Step(s2, Main) == Some(s3);
    ServerStep(s2, Main, s3);
    LaterThen(s, [Deliver(r)], s2, [Main], s3);
    GoodOf(s2, [Main], s3);
    var rest;
    rest, s1 := FinishIt(s3, k, r);
    more := [Deliver(r)] + [Main] + rest;
    LaterThen(s, [Deliver(r)] + [Main], s3, rest, s1);
  }

  lemma GoodOf(s: Sys, more: seq<Action>, s1: Sys)
    requires Later(s, more, s1)
    ensures Good(s1)
  {
  }

  lemma FinishIt(s: Sys, k: nat, r: Req) returns (more: seq<Action>, s1: Sys)
    requires Good(s) && s.server.main == Claimed(k, r) && Defined(r) && k < TABLESIZE && r in s.reqs
    requires s.server.table[k].client == r.client && s.server.table[k].seqNum == r.seqNum && Slot(s.server.table, r.client) == k
    ensures Later(s, more, s1) && s1.server.main.Ready? && Stored(s1.server, r)
  {
    hide SysInv;
    hide NoneForgotten;
    hide Later;
    hide Slot;
    TableFacts(s, r);
    var a := Step(s, Main).value;
    ServerStep(s, Main, a);
    GoodOf(s, [Main], a);
    var b := Step(a, Main).value;
    ServerStep(a, Main, b);
    GoodOf(a, [Main], b);
    s1 := Step(b, Main).value;
    ServerStep(b, Main, s1);
    LaterThen(s, [Main], a, [Main], b);
    LaterThen(s, [Main] + [Main], b, [Main], s1);
    more := [Main] + [Main] + [Main];
    SlotStays(s.server.table, s1.server.table, r.client);
  }

  /** An idle that is not done gets done: its thread, one that is asleep or a new one, wakes. */
  lemma SleepIt(s: Sys, r: Req) returns (more: seq<Action>, s1: Sys)
    requires Good(s) && s.server.main.Ready? && Awaited(s, r) && r.opcode == 0 && !Stored(s.server, r)
    ensures Later(s, more, s1) && s1.server.main.Ready? && Stored(s1.server, r)
  {
    hide SysInv;
    hide NoneForgotten;
    hide Later;
    hide Slot;
    hide Compare;
    NotStored(s, r);
    TableFacts(s, r);
    var k := Slot(s.server.table, r.client);
    if Compare(s.server.table, r).New? {
      ClaimNew(s.server.table, r);
      var s2 := Step(s, Deliver(r)).value;
      ServerStep(s, Deliver(r), s2);
      GoodOf(s, [Deliver(r)], s2);
      var s3 := Step(s2, Action.Thread(Starter(r))).value;
      ServerStep(s2, Action.Thread(Starter(r)), s3);
      GoodOf(s2, [Action.Thread(Starter(r))], s3);
      LaterThen(s, [Deliver(r)], s2, [Action.Thread(Starter(r))], s3);
      assert Sleeper(k, r) in s3.server.threads && s3.server.table == Claim(s.server.table, r);
      s1 := WakeIt(s3, k, r);
      more := [Deliver(r)] + [Action.Thread(Starter(r))] + [Action.Thread(Sleeper(k, r))];
      LaterThen(s, [Deliver(r)] + [Action.Thread(Starter(r))], s3, [Action.Thread(Sleeper(k, r))], s1);
    } else {
      s1 := WakeIt(s, k, r);
      more := [Action.Thread(Sleeper(k, r))];
    }
  }

  lemma WakeIt(s: Sys, k: nat, r: Req) returns (s1: Sys)
    requires Good(s) && s.server.main.Ready? && k < TABLESIZE && r in s.reqs && Sleeper(k, r) in s.server.threads
    requires s.server.table[k].client == r.client && s.server.table[k].seqNum == r.seqNum && Slot(s.server.table, r.client) == k
    ensures Later(s, [Action.Thread(Sleeper(k, r))], s1) && s1.server.main.Ready? && Stored(s1.server, r)
  {
    hide SysInv;
    hide NoneForgotten;
    hide Later;
    hide Slot;
    TableFacts(s, r);
    s1 := Step(s, Action.Thread(Sleeper(k, r))).value;
    ServerStep(s, Action.Thread(Sleeper(k, r)), s1);
    SlotStays(s.server.table, s1.server.table, r.client);
  }

  /** A request that is done is answered with its result. */
  lemma AnswerIt(s: Sys, r: Req) returns (more: seq<Action>, s1: Sys, v: int)
    requires Good(s) && s.server.main.Ready? && Awaited(s, r) && Stored(s.server, r)
    ensures Later(s, more, s1) && Feedback(r.client, r.seqNum, false, v) in s1.fbs
  {
    hide SysInv;
    hide NoneForgotten;
    hide Later;
    hide Slot;
    var k := Slot(s.server.table, r.client);
    v := s.server.table[k].result;
    var s2 := Step(s, Deliver(r)).value;
    ServerStep(s, Deliver(r), s2);
    GoodOf(s, [Deliver(r)], s2);
    SameClaim(s.server.table, r);
    var claim, answer, s3;
    if r.opcode == 0 { claim, answer, s3, s1 := AnswerIdle(s2, k, r); } else { claim, answer, s3, s1 := AnswerGet(s2, k, r); }
    LaterThen(s, [Deliver(r)], s2, [claim], s3);
    LaterThen(s, [Deliver(r)] + [claim], s3, [answer], s1);
    more := [Deliver(r)] + [claim] + [answer];
  }

  lemma AnswerGet(s: Sys, k: nat, r: Req) returns (claim: Action, answer: Action, m: Sys, s1: Sys)
    requires Good(s) && s.server.main == Spawned(r) && k < TABLESIZE && k == Slot(s.server.table, r.client) && r.opcode != 0
    requires Compare(s.server.table, r).Same? && Claim(s.server.table, r) == s.server.table && s.server.table[k].done
    ensures Later(s, [claim], m) && Later(m, [answer], s1)
    ensures Feedback(r.client, r.seqNum, false, s.server.table[k].result) in s1.fbs
  {
    hide SysInv;
    hide NoneForgotten;
    hide Later;
    hide Slot;
    hide Claim;
    hide Compare;
    claim, answer := Main, Main;
    m := Step(s, Main).value;
    ServerStep(s, Main, m);
    GoodOf(s, [Main], m);
    assert m.server.main == Answering(k, r);
    s1 := Step(m, Main).value;
    ServerStep(m, Main, s1);
  }

  lemma AnswerIdle(s: Sys, k: nat, r: Req) returns (claim: Action, answer: Action, m: Sys, s1: Sys)
    requires Good(s) && Starter(r) in s.server.threads && k < TABLESIZE && k == Slot(s.server.table, r.client) && r.opcode == 0
    requires Compare(s.server.table, r).Same? && Claim(s.server.table, r) == s.server.table && s.server.table[k].done
    ensures Later(s, [claim], m) && Later(m, [answer], s1)
    ensures Feedback(r.client, r.seqNum, false, s.server.table[k].result) in s1.fbs
  {
    hide SysInv;
    hide NoneForgotten;
    hide Later;
    hide Slot;
    hide Claim;
    hide Compare;
    claim, answer := Action.Thread(Starter(r)), Action.Thread(Replier(k, r));
    m := Step(s, claim).value;
    ServerStep(s, claim, m);
    GoodOf(s, [claim], m);
    assert Replier(k, r) in m.server.threads && m.server.table == s.server.table;
    s1 := Step(m, answer).value;
    ServerStep(m, answer, s1);
  }

  lemma SameClaim(t: Table, r: Req)
    requires Slot(t, r.client) < TABLESIZE && t[Slot(t, r.client)].client == r.client && t[Slot(t, r.client)].seqNum == r.seqNum
    ensures Compare(t, r).Same? && Claim(t, r) == t
  {
    hide Slot;
    assert t[Slot(t, r.client)].(client := r.client) == t[Slot(t, r.client)];
  }

  /** A packet with a number below the stored one changes nothing and is not answered. */
  lemma OldIsIgnored(s: Server, r: Req)
    requires s.main == Spawned(r) || (s.main.Ready? && Starter(r) in s.threads)
    requires var k := Slot(s.table, r.client); k < TABLESIZE && s.table[k].client == r.client && r.seqNum < s.table[k].seqNum
    ensures if s.main.Spawned? then MainStep(s) == (s.(main := Ready), None)
            else ThreadStep(s, Starter(r)) == (s.(threads := s.threads - multiset{Starter(r)}), None)
  {
    hide Slot;
    var k := Slot(s.table, r.client);
    assert s.table[k].(client := r.client) == s.table[k] && Claim(s.table, r) == s.table;
  }

  /** From every reachable state a call in progress can be brought to its return, unless its key or
      that of the call main waits for is one past the array. */
  lemma CallCanReturn(run: seq<Action>, c: int) returns (more: seq<Action>)
    requires Run(Init(), run).Some?
    requires var s := Run(Init(), run).value;
      && c in s.clients && s.clients[c].pending.Some? && Defined(s.clients[c].pending.value.0)
      && (!s.server.main.Ready? ==> Defined(s.server.main.r))
    ensures var s := Run(Init(), run).value;
      && Run(s, more).Some?
      && var t := Run(s, more).value;
         && c in t.clients && t.clients[c].pending.None? && t.clients[c].seqNum == s.clients[c].seqNum + 1
         && |t.hist| == |s.hist| + 1 && t.hist[..|s.hist|] == s.hist && t.hist[|s.hist|].r == s.clients[c].pending.value.0
  {
    hide SysInv;
    hide NoneForgotten;
    hide Run;
    hide Later;
    hide Stored;
    InitInv();
    InitGood();
    RunForgets(Init(), run);
    var s := Run(Init(), run).value;
    var r := s.clients[c].pending.value.0;
    PendingIs(s, c);
    var a := Step(s, Send(c)).value;
    StepInv(s, Send(c));
    StepForgets(s, Send(c));
    OneStep(s, Send(c), a);
    var more1, b := Drain(a);
    LaterFacts(a, more1, b);
    var more2, d := [], b;
    LaterSelf(b);
    if !Stored(b.server, r) {
      if r.opcode == 0 { more2, d := SleepIt(b, r); } else { more2, d := ServeIt(b, r); }
    }
    LaterFacts(b, more2, d);
    LaterThen(a, more1, b, more2, d);
    var more3, e, v := AnswerIt(d, r);
    LaterFacts(d, more3, e);
    LaterThen(a, more1 + more2, d, more3, e);
    LaterFacts(a, more1 + more2 + more3, e);
    var fb := Feedback(c, r.seqNum, false, v);
    var t := Step(e, Reply(c, fb)).value;
    OneStep(e, Reply(c, fb), t);
    RunThen(a, more1 + more2 + more3, [Reply(c, fb)]);
    RunThen(s, [Send(c)], more1 + more2 + more3 + [Reply(c, fb)]);
    more := [Send(c)] + (more1 + more2 + more3 + [Reply(c, fb)]);
    assert t.hist[..|s.hist|] == s.hist;
  }

  lemma InitGood()
    ensures NoneForgotten(Init().server)
  {
  }

  lemma OneStep(s: Sys, a: Action, s1: Sys)
    requires Step(s, a) == Some(s1)
    ensures Run(s, [a]) == Some(s1)
  {
    hide Step;
    assert [a][1..] == [];
  }

  lemma LaterFacts(s: Sys, more: seq<Action>, s1: Sys)
    requires Later(s, more, s1)
    ensures Run(s, more) == Some(s1) && Good(s1) && s1.clients == s.clients && s1.hist == s.hist && s1.reqs == s.reqs
  {
  }

  lemma PendingIs(s: Sys, c: int)
    requires SysInv(s) && c in s.clients && s.clients[c].pending.Some?
    ensures var r := s.clients[c].pending.value.0; r.client == c && r.seqNum == s.clients[c].seqNum
  {
    assert ClientOk(s, c);
  }
}
