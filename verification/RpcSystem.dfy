/** Clients, an unreliable network and the server of P8_Distributed_Systems as one step
    system, and the proof that every call that returns took effect exactly once, between its
    call and its return.

    The network keeps every packet ever sent and may deliver any of them at any time, any
    number of times, or never: that is loss, duplication and reordering.  The main thread of
    the server joins the threads of get and put (server.c:119-121), so they run one at a time;
    the threads of idle requests overlap everything, their own lookup and claim included.
    Looking a client up and claiming its request is one step (server.c:33-74, the commented-out
    critical section). */
module RpcSystem {
  import opened RpcServer
  import opened Wrappers

  /** Where the thread of a get or put is, which main waits for. */
  datatype Main =
    | Ready
    | Spawned(r: Req)                      // the thread is created, its request not looked up yet
    | Claimed(i: nat, r: Req)              // claimed, about to run get/put
    | Ran(i: nat, r: Req, val: int)        // ran, about to set done
    | Marked(i: nat, r: Req, val: int)     // done is set, the result is not stored yet
    | Answering(i: nat, r: Req)            // repeated request, about to read the slot

  /** A thread serving an idle request. */
  datatype Thread =
    | Starter(r: Req)                      // created, its request not looked up yet
    | Sleeper(i: nat, r: Req)              // claimed, sleeping
    | Replier(i: nat, r: Req)              // repeated request, about to read the slot

  // One execution: an idle when its sleep ends, a get or put when it runs.
  datatype Exec = Exec(r: Req, val: int)

  datatype Server = Server(table: Table, store: Store, main: Main, threads: multiset<Thread>, log: seq<Exec>)

  // pending: the request of the call in progress and the length of the log when it began.
  datatype Client = Client(seqNum: int, pending: Option<(Req, nat)>)

  /** A finished call: its request, what it returned, and the log's length at both ends. */
  datatype Call = Call(r: Req, val: int, begin: nat, end: nat)

  datatype Sys = Sys(server: Server, reqs: set<Req>, fbs: set<Feedback>, clients: map<int, Client>, hist: seq<Call>)

  // ---------------------------------------------------------------- server steps

  /** main receives a packet and creates a thread for it.  None: main is waiting for one. */
  function Receive(s: Server, r: Req): Option<Server>
  {
    if !s.main.Ready? then None
    else if r.opcode == 0 then Some(s.(threads := s.threads + multiset{Starter(r)}))
    else Some(s.(main := Spawned(r)))
  }

  /** A thread looks its client up and claims the request.  s has that thread taken out. */
  function Enroll(s: Server, r: Req): Server
    requires Slot(s.table, r.client) < TABLESIZE
  {
    var i, s1 := Slot(s.table, r.client), s.(table := Claim(s.table, r));
    match Compare(s.table, r)
    case Old => s1
    case Same =>
      if r.opcode == 0 then s1.(threads := s.threads + multiset{Replier(i, r)}) else s1.(main := Answering(i, r))
    case New =>
      if r.opcode == 0 then s1.(threads := s.threads + multiset{Sleeper(i, r)}) else s1.(main := Claimed(i, r))
  }

  /** The get or put thread's next step, and the packet it sends, if any. */
  function MainStep(s: Server): (Server, Option<Feedback>)
    requires MainOk(s)
  {
    match s.main
    case Ready => (s, None)
    case Spawned(r) => (Enroll(s.(main := Ready), r), None)
    case Claimed(i, r) =>
      (s.(store := ExecStore(s.store, r), main := Ran(i, r, ExecVal(s.store, r)),
          log := s.log + [Exec(r, ExecVal(s.store, r))]), None)
    case Ran(i, r, v) => (s.(table := s.table[i := s.table[i].(done := true)], main := Marked(i, r, v)), None)
    case Marked(i, _, v) => (s.(table := s.table[i := s.table[i].(result := v)], main := Ready), None)
    case Answering(i, r) => (s.(main := Ready), Some(Answer(s.table, i, r)))
  }

  /** What the step does is defined: there is a slot, and the key is in the array. */
  predicate MainOk(s: Server) {
    match s.main
    case Ready => true
    case Spawned(r) => Slot(s.table, r.client) < TABLESIZE
    case Claimed(i, r) => i < TABLESIZE && Defined(r)
    case Ran(i, _, _) => i < TABLESIZE
    case Marked(i, _, _) => i < TABLESIZE
    case Answering(i, _) => i < TABLESIZE
  }

  /** An idle thread's next step. */
  function ThreadStep(s: Server, th: Thread): (Server, Option<Feedback>)
    requires IdleOk(s, th)
  {
    var rest := s.threads - multiset{th};
    match th
    case Starter(r) => (Enroll(s.(threads := rest), r), None)
    case Sleeper(i, r) =>
      (s.(table := s.table[i := s.table[i].(done := true)], threads := rest, log := s.log + [Exec(r, -1)]), None)
    case Replier(i, r) => (s.(threads := rest), Some(Answer(s.table, i, r)))
  }

  predicate IdleOk(s: Server, th: Thread) {
    th in s.threads && if th.Starter? then Slot(s.table, th.r.client) < TABLESIZE else th.i < TABLESIZE
  }

  // ---------------------------------------------------------------- all steps

  datatype Action =
    | Join(c: int)                                  // RPC_init with a fresh id
    | Begin(c: int, opcode: int, time: int, key: int, value: int)  // RPC_idle, RPC_get, RPC_put
    | Send(c: int)                                  // (re)send the pending request
    | Deliver(r: Req)                               // to the server
    | Main
    | Thread(th: Thread)
    | Reply(c: int, fb: Feedback)                   // to a client

  function WithFb(fbs: set<Feedback>, o: Option<Feedback>): set<Feedback>
  {
    if o.Some? then fbs + {o.value} else fbs
  }

  /** What a client does with a packet: it ignores what is not for its pending request, goes
      on waiting on an ack, and returns on a result. */
  function ClientStep(s: Sys, c: int, fb: Feedback): Sys
    requires c in s.clients
  {
    var cl := s.clients[c];
    if cl.pending.None? || fb.client != c || fb.seqNum != cl.seqNum || fb.ack then s
    else s.(clients := s.clients[c := Client(cl.seqNum + 1, None)],
            hist := s.hist + [Call(cl.pending.value.0, fb.val, cl.pending.value.1, |s.server.log|)])
  }

  /** One step; None when the action is not possible, or what it does is undefined. */
  function Step(s: Sys, a: Action): Option<Sys>
  {
    match a
    case Join(c) =>
      if c in s.clients || c == FREE || |s.clients| >= TABLESIZE then None
      else Some(s.(clients := s.clients[c := Client(0, None)]))
    case Begin(c, opcode, time, key, value) =>
      if c !in s.clients || s.clients[c].pending.Some? then None
      else
        var r := Req(opcode, c, s.clients[c].seqNum, time, key, value);
        Some(s.(clients := s.clients[c := Client(s.clients[c].seqNum, Some((r, |s.server.log|)))]))
    case Send(c) =>
      if c !in s.clients || s.clients[c].pending.None? then None
      else Some(s.(reqs := s.reqs + {s.clients[c].pending.value.0}))
    case Deliver(r) =>
      if r !in s.reqs then None
      else (match Receive(s.server, r) case None => None case Some(sv) => Some(s.(server := sv)))
    case Main =>
      if s.server.main.Ready? || !MainOk(s.server) then None
      else
        var (sv, o) := MainStep(s.server);
        Some(s.(server := sv, fbs := WithFb(s.fbs, o)))
    case Thread(th) =>
      if !IdleOk(s.server, th) then None
      else
        var (sv, o) := ThreadStep(s.server, th);
        Some(s.(server := sv, fbs := WithFb(s.fbs, o)))
    case Reply(c, fb) =>
      if c !in s.clients || fb !in s.fbs then None else Some(ClientStep(s, c, fb))
  }

  function Init(): Sys {
    Sys(Server(EmptyTable(), EmptyStore(), Ready, multiset{}, []), {}, {}, map[], [])
  }

  // ---------------------------------------------------------------- the specification

  /** The store after the logged executions, in order. */
  ghost function Fold(log: seq<Exec>): Store
    requires LogOk(log)
  {
    if log == [] then EmptyStore() else ExecStore(Fold(log[..|log| - 1]), log[|log| - 1].r)
  }

  ghost predicate LogOk(log: seq<Exec>) { forall i | 0 <= i < |log| :: Defined(log[i].r) }

  /** Every logged result is what the operation returns on the store left by those before. */
  ghost predicate LogSequential(log: seq<Exec>)
  {
    LogOk(log) && forall i | 0 <= i < |log| :: log[i].val == ExecVal(Fold(log[..i]), log[i].r)
  }

  // Execution i is that of request (c, n).
  ghost predicate At(log: seq<Exec>, i: int, c: int, n: int) {
    0 <= i < |log| && log[i].r.client == c && log[i].r.seqNum == n
  }

  ghost predicate Logged(log: seq<Exec>, c: int, n: int) { exists i :: At(log, i, c, n) }

  /** No request is executed twice. */
  ghost predicate AtMostOnce(log: seq<Exec>) {
    forall i, j | 0 <= i < j < |log| :: log[i].r.client != log[j].r.client || log[i].r.seqNum != log[j].r.seqNum
  }

  /** A finished call was executed once, while it was in progress, and returned that
      execution's result (an idle returns nothing). */
  ghost predicate CallOk(log: seq<Exec>, k: Call) {
    && k.end <= |log|
    && exists i :: At(log, i, k.r.client, k.r.seqNum) && k.begin <= i < k.end
         && log[i].r == k.r && (k.r.opcode != 0 ==> log[i].val == k.val)
  }

  ghost predicate Linearizable(s: Sys) {
    && LogSequential(s.server.log)
    && s.server.store == Fold(s.server.log)
    && AtMostOnce(s.server.log)
    && forall k | 0 <= k < |s.hist| :: CallOk(s.server.log, s.hist[k])
  }

  // ---------------------------------------------------------------- the invariant

  /** A packet carries a number its client has reached; under the current number it is the
      pending request. */
  ghost predicate Issued(s: Sys, r: Req) {
    && ReqOk(r) && r.client in s.clients && 0 <= r.seqNum <= s.clients[r.client].seqNum
    && (r.seqNum == s.clients[r.client].seqNum ==>
          s.clients[r.client].pending.Some? && s.clients[r.client].pending.value.0 == r)
  }

  ghost predicate SameId(r: Req, q: Req) { r.client == q.client && r.seqNum == q.seqNum }

  ghost predicate ReqsOk(s: Sys) {
    && (forall r | r in s.reqs :: Issued(s, r))
    && (forall r, q | r in s.reqs && q in s.reqs && SameId(r, q) :: r == q)
  }

  // A pending call has not been executed before it began; all earlier calls have been.
  ghost predicate ClientOk(s: Sys, c: int)
    requires c in s.clients
  {
    var cl, log := s.clients[c], s.server.log;
    && c != FREE && cl.seqNum >= 0
    && (forall n | 0 <= n < cl.seqNum :: Logged(log, c, n))
    && (cl.pending.Some? ==>
          var (r, begin) := cl.pending.value;
          && r.client == c && r.seqNum == cl.seqNum && begin <= |log|
          && forall i | 0 <= i < begin :: !At(log, i, c, cl.seqNum))
  }

  ghost predicate ClientsOk(s: Sys) { forall c | c in s.clients :: ClientOk(s, c) }

  // The slot of a logged client has reached at least the logged number.
  ghost predicate SlotCovers(t: Table, c: int, n: int) {
    exists i :: 0 <= i < TABLESIZE && t[i].client == c && n <= t[i].seqNum
  }

  ghost predicate LogInv(s: Sys) {
    var sv := s.server;
    && LogSequential(sv.log) && sv.store == Fold(sv.log) && AtMostOnce(sv.log)
    && (forall i | 0 <= i < |sv.log| :: sv.log[i].r in s.reqs)
    && (forall i | 0 <= i < |sv.log| :: SlotCovers(sv.table, sv.log[i].r.client, sv.log[i].r.seqNum))
  }

  // A result is right for (c, n): if that was a get or put, it is its logged result.
  ghost predicate ResultOk(log: seq<Exec>, c: int, n: int, val: int) {
    && Logged(log, c, n)
    && forall i | At(log, i, c, n) && log[i].r.opcode != 0 :: log[i].val == val
  }

  ghost predicate TableInv(s: Sys) {
    var t, sv := s.server.table, s.server;
    && TableOk(t)
    && (forall i | 0 <= i < TABLESIZE && t[i].client != FREE ::
          t[i].client in s.clients && t[i].seqNum <= s.clients[t[i].client].seqNum)
    && (forall i | 0 <= i < TABLESIZE && t[i].done :: Logged(sv.log, t[i].client, t[i].seqNum))
    && (forall i | 0 <= i < TABLESIZE && t[i].done && !(sv.main.Marked? && sv.main.i == i) ::
          ResultOk(sv.log, t[i].client, t[i].seqNum, t[i].result))
    && (forall i | 0 <= i < TABLESIZE && t[i].client != FREE && !t[i].done && Logged(sv.log, t[i].client, t[i].seqNum) ::
          sv.main.Ran? && sv.main.i == i)
  }

  // Slot i belongs to the client of r and holds its number.
  ghost predicate Holds(t: Table, i: nat, r: Req) {
    i < TABLESIZE && t[i].client == r.client && t[i].seqNum == r.seqNum
  }

  // No result for r has been sent, so its client is still waiting.
  ghost predicate Unanswered(s: Sys, r: Req) {
    && r.client in s.clients && s.clients[r.client].seqNum == r.seqNum
    && forall fb | fb in s.fbs && fb.client == r.client && fb.seqNum == r.seqNum :: fb.ack
  }

  // Slot i still has the number of r, or it has moved on and kept the right result for r.
  ghost predicate CanAnswer(s: Sys, i: nat, r: Req) {
    && i < TABLESIZE && s.server.table[i].client == r.client && r.seqNum <= s.server.table[i].seqNum
    && (r.seqNum < s.server.table[i].seqNum ==> ResultOk(s.server.log, r.client, r.seqNum, s.server.table[i].result))
  }

  ghost predicate MainInv(s: Sys) {
    var sv := s.server;
    sv.main.Ready? ||
    (&& sv.main.r in s.reqs && sv.main.r.opcode != 0
     && (sv.main.Answering? ==> CanAnswer(s, sv.main.i, sv.main.r))
     && (Working(sv.main) ==> Holds(sv.table, sv.main.i, sv.main.r) && Unanswered(s, sv.main.r))
     && (sv.main.Claimed? ==> !sv.table[sv.main.i].done && !Logged(sv.log, sv.main.r.client, sv.main.r.seqNum))
     && (sv.main.Ran? ==> !sv.table[sv.main.i].done)
     && (sv.main.Ran? || sv.main.Marked? ==> ResultOk(sv.log, sv.main.r.client, sv.main.r.seqNum, sv.main.val)))
  }

  predicate Working(m: Main) { m.Claimed? || m.Ran? || m.Marked? }

  ghost predicate ThreadOk(s: Sys, th: Thread) {
    && th.r in s.reqs && th.r.opcode == 0
    && (!th.Starter? ==>
          && th.i < TABLESIZE && s.server.table[th.i].client == th.r.client && th.r.seqNum <= s.server.table[th.i].seqNum)
    && (th.Sleeper? ==>
          && Holds(s.server.table, th.i, th.r) && !s.server.table[th.i].done
          && !Logged(s.server.log, th.r.client, th.r.seqNum) && s.server.threads[th] == 1)
  }

  ghost predicate ThreadsInv(s: Sys) { forall th | th in s.server.threads :: ThreadOk(s, th) }

  ghost predicate FbsOk(s: Sys) {
    forall fb | fb in s.fbs && !fb.ack :: ResultOk(s.server.log, fb.client, fb.seqNum, fb.val)
  }

  ghost predicate HistOk(s: Sys) { forall k | 0 <= k < |s.hist| :: CallOk(s.server.log, s.hist[k]) }

  ghost predicate SysInv(s: Sys) {
    && |s.clients| <= TABLESIZE
    && ReqsOk(s) && ClientsOk(s) && LogInv(s) && TableInv(s) && MainInv(s) && ThreadsInv(s) && FbsOk(s) && HistOk(s)
  }

  lemma InitInv()
    ensures SysInv(Init())
  {
  }

  lemma InvIsLinearizable(s: Sys)
    requires SysInv(s)
    ensures Linearizable(s)
  {
  }

  // ---------------------------------------------------------------- steps that leave the server alone

  lemma JoinInv(s: Sys, c: int)
    requires SysInv(s) && Step(s, Join(c)).Some?
    ensures SysInv(Step(s, Join(c)).value)
  {
    hide LogSequential;
    hide AtMostOnce;
    hide CallOk;
    hide ResultOk;
    hide TableOk;
    hide SlotCovers;
  }

  lemma BeginInv(s: Sys, c: int, opcode: int, time: int, key: int, value: int)
    requires SysInv(s) && Step(s, Begin(c, opcode, time, key, value)).Some?
    ensures SysInv(Step(s, Begin(c, opcode, time, key, value)).value)
  {
    hide LogSequential;
    hide AtMostOnce;
    hide CallOk;
    hide ResultOk;
    hide TableOk;
    hide SlotCovers;
    var s1 := Step(s, Begin(c, opcode, time, key, value)).value;
    forall i | 0 <= i < |s.server.log| ensures !At(s.server.log, i, c, s.clients[c].seqNum) {
      assert s.server.log[i].r in s.reqs;
    }
  }

  lemma SendInv(s: Sys, c: int)
    requires SysInv(s) && Step(s, Send(c)).Some?
    ensures SysInv(Step(s, Send(c)).value)
  {
    hide LogSequential;
    hide AtMostOnce;
    hide CallOk;
    hide ResultOk;
    hide TableOk;
    hide SlotCovers;
    var s1 := Step(s, Send(c)).value;
    assert ClientOk(s, c);
    assert ReqsOk(s1);
  }

  // The call returns on a result for its own number: it was executed since it began.
  lemma ReplyCall(s: Sys, c: int, fb: Feedback)
    requires SysInv(s) && c in s.clients && fb in s.fbs && !fb.ack && s.clients[c].pending.Some?
    requires fb.client == c && fb.seqNum == s.clients[c].seqNum
    ensures var (r, begin) := s.clients[c].pending.value;
      Logged(s.server.log, c, fb.seqNum) && CallOk(s.server.log, Call(r, fb.val, begin, |s.server.log|))
  {
    hide LogSequential;
    hide AtMostOnce;
    hide TableInv;
    hide MainInv;
    hide ThreadsInv;
    hide HistOk;
    var (r, begin) := s.clients[c].pending.value;
    var log := s.server.log;
    assert ClientOk(s, c) && ResultOk(log, c, fb.seqNum, fb.val);
    var i :| At(log, i, c, fb.seqNum);
    assert log[i].r in s.reqs && Issued(s, log[i].r);
  }

  lemma ReplyInv(s: Sys, c: int, fb: Feedback)
    requires SysInv(s) && Step(s, Reply(c, fb)).Some?
    ensures SysInv(Step(s, Reply(c, fb)).value)
  {
    hide LogSequential;
    hide AtMostOnce;
    hide CallOk;
    hide TableOk;
    hide ResultOk;
    hide Logged;
    hide SlotCovers;
    var s1 := Step(s, Reply(c, fb)).value;
    if s1 != s {
      ReplyCall(s, c, fb);
      assert ClientOk(s, c);
      assert ClientOk(s1, c);
    }
  }

  // ---------------------------------------------------------------- a packet reaches the server

  lemma DeliverInv(s: Sys, r: Req)
    requires SysInv(s) && Step(s, Deliver(r)).Some?
    ensures SysInv(Step(s, Deliver(r)).value)
  {
    hide LogInv;
    hide TableOk;
    hide ResultOk;
    hide Logged;
    hide CallOk;
    hide ReqsOk;
    hide ClientsOk;
    var s1 := Step(s, Deliver(r)).value;
    QuietKeeps(s, s1);
    forall th | th in s1.server.threads ensures ThreadOk(s1, th) {
      if th in s.server.threads { assert ThreadOk(s, th); }
    }
  }

  // ---------------------------------------------------------------- a request is looked up and claimed

  /** The thread of r, of whichever kind, looks it up. */
  ghost predicate Enrolls(s: Sys, r: Req, s1: Sys) {
    && Slot(s.server.table, r.client) < TABLESIZE && s1 == s.(server := s1.server)
    && if r.opcode == 0 then
         Starter(r) in s.server.threads && s1.server == Enroll(s.server.(threads := s.server.threads - multiset{Starter(r)}), r)
       else s.server.main == Spawned(r) && s1.server == Enroll(s.server.(main := Ready), r)
  }

  // A request above the number in its client's slot has not been executed, and nobody is
  // asleep over that slot.
  lemma NewIsUnlogged(s: Sys, r: Req)
    requires SysInv(s) && r in s.reqs && Slot(s.server.table, r.client) < TABLESIZE && Compare(s.server.table, r).New?
    ensures !Logged(s.server.log, r.client, r.seqNum)
    ensures forall th | th in s.server.threads && th.Sleeper? :: th.i != Slot(s.server.table, r.client)
  {
    hide LogSequential;
    hide AtMostOnce;
    hide MainInv;
    hide HistOk;
    hide FbsOk;
    var t, k := s.server.table, Slot(s.server.table, r.client);
    if Logged(s.server.log, r.client, r.seqNum) {
      var e :| At(s.server.log, e, r.client, r.seqNum);
      var j :| 0 <= j < TABLESIZE && t[j].client == r.client && r.seqNum <= t[j].seqNum;
      SlotFindsClient(t, r.client, j);
    }
    forall th | th in s.server.threads && th.Sleeper? ensures th.i != k {
      assert ThreadOk(s, th);
      assert Issued(s, r) && Issued(s, th.r);
      if r.client in s.clients && r.client == th.r.client { assert ClientOk(s, r.client); }
    }
  }

  lemma ClaimTableInv(s: Sys, r: Req, s1: Sys)
    requires SysInv(s) && r in s.reqs && Enrolls(s, r, s1)
    ensures TableInv(s1)
  {
    hide LogInv;
    hide MainInv;
    hide ThreadsInv;
    hide HistOk;
    hide FbsOk;
    hide ClientsOk;
    hide Logged;
    ClaimKeepsTable(s.server.table, r);
    assert Issued(s, r);
    if Compare(s.server.table, r).New? { NewIsUnlogged(s, r); NewNotWorking(s, r); }
  }

  // While main's request is unanswered its client has no later one, so its slot stays.
  lemma NewNotWorking(s: Sys, r: Req)
    requires SysInv(s) && r in s.reqs && Slot(s.server.table, r.client) < TABLESIZE && Compare(s.server.table, r).New?
    ensures Working(s.server.main) ==> s.server.main.i != Slot(s.server.table, r.client)
  {
    hide LogInv;
    hide ThreadsInv;
    hide HistOk;
    hide FbsOk;
    hide ClientsOk;
    hide Logged;
    hide ResultOk;
    assert Issued(s, r);
    if Working(s.server.main) { assert Issued(s, s.server.main.r); }
  }

  lemma ClaimCovers(t: Table, r: Req, c: int, n: int)
    requires TableOk(t) && ReqOk(r) && Slot(t, r.client) < TABLESIZE && SlotCovers(t, c, n) && c != FREE
    ensures SlotCovers(Claim(t, r), c, n)
  {
    var i :| 0 <= i < TABLESIZE && t[i].client == c && n <= t[i].seqNum;
    assert Claim(t, r)[i].client == c && n <= Claim(t, r)[i].seqNum;
  }

  lemma ClaimLogInv(s: Sys, r: Req, s1: Sys)
    requires SysInv(s) && r in s.reqs && Slot(s.server.table, r.client) < TABLESIZE
    requires s1.reqs == s.reqs && s1.server.table == Claim(s.server.table, r)
    requires s1.server.log == s.server.log && s1.server.store == s.server.store
    ensures LogInv(s1)
  {
    hide LogSequential;
    hide AtMostOnce;
    hide MainInv;
    hide ThreadsInv;
    hide HistOk;
    hide FbsOk;
    hide SlotCovers;
    hide Claim;
    assert Issued(s, r);
    forall i | 0 <= i < |s.server.log|
      ensures SlotCovers(s1.server.table, s.server.log[i].r.client, s.server.log[i].r.seqNum)
    {
      assert s.server.log[i].r in s.reqs && Issued(s, s.server.log[i].r);
      ClaimCovers(s.server.table, r, s.server.log[i].r.client, s.server.log[i].r.seqNum);
    }
  }

  lemma ClaimThreads(s: Sys, r: Req, s1: Sys, th: Thread)
    requires SysInv(s) && r in s.reqs && Slot(s.server.table, r.client) < TABLESIZE
    requires s1.reqs == s.reqs && s1.server.table == Claim(s.server.table, r) && s1.server.log == s.server.log
    requires th in s.server.threads && (th.Sleeper? ==> s1.server.threads[th] == 1)
    ensures ThreadOk(s1, th)
  {
    hide LogInv;
    hide MainInv;
    hide Logged;
    hide HistOk;
    hide FbsOk;
    hide ClientsOk;
    hide TableOk;
    assert Issued(s, r);
    assert ThreadOk(s, th);
    assert TableOk(s.server.table);
    ClaimKeepsTable(s.server.table, r);
    if Compare(s.server.table, r).New? { NewIsUnlogged(s, r); }
  }

  lemma EnrollThreads(s: Sys, r: Req, s1: Sys)
    requires SysInv(s) && r in s.reqs && Enrolls(s, r, s1)
    ensures ThreadsInv(s1)
  {
    hide LogInv;
    hide TableInv;
    hide MainInv;
    hide HistOk;
    hide FbsOk;
    hide ClientsOk;
    hide Claim;
    hide ThreadOk;
    EnrollShape(s, r, s1);
    forall th | th in s1.server.threads ensures ThreadOk(s1, th) {
      if th in s.server.threads && (th.Sleeper? ==> s1.server.threads[th] == 1) {
        ClaimThreads(s, r, s1, th);
      } else {
        EnrollNewThread(s, r, s1, th);
      }
    }
  }

  lemma EnrollShape(s: Sys, r: Req, s1: Sys)
    requires Enrolls(s, r, s1)
    ensures s1.server.table == Claim(s.server.table, r) && s1.server.log == s.server.log && s1.server.store == s.server.store
    ensures s1.reqs == s.reqs && s1.fbs == s.fbs && s1.clients == s.clients && s1.hist == s.hist
  {
  }

  // The thread an idle request turns into.
  lemma EnrollNewThread(s: Sys, r: Req, s1: Sys, th: Thread)
    requires SysInv(s) && r in s.reqs && Enrolls(s, r, s1) && th in s1.server.threads
    requires th !in s.server.threads || (th.Sleeper? && s1.server.threads[th] != 1)
    ensures ThreadOk(s1, th)
  {
    hide LogInv;
    hide MainInv;
    hide HistOk;
    hide FbsOk;
    hide ClientsOk;
    hide Logged;
    assert TableOk(s.server.table) && Issued(s, r);
    ClaimKeepsTable(s.server.table, r);
    if Compare(s.server.table, r).New? { NewIsUnlogged(s, r); }
    assert th in s.server.threads ==> ThreadOk(s, th);
  }

  // The claim of a get or put.
  lemma EnrollMain(s: Sys, r: Req, s1: Sys)
    requires SysInv(s) && r in s.reqs && r.opcode != 0 && Enrolls(s, r, s1)
    ensures MainInv(s1)
  {
    hide LogInv;
    hide ThreadsInv;
    hide HistOk;
    hide ClientOk;
    hide Logged;
    hide TableOk;
    assert TableOk(s.server.table) && Issued(s, r);
    ClaimKeepsTable(s.server.table, r);
    if Compare(s.server.table, r).New? {
      NewIsUnlogged(s, r);
      NotLoggedYet(s, r);
    }
  }

  // A request without an execution is its client's current one.
  lemma NotLoggedYet(s: Sys, r: Req)
    requires SysInv(s) && r in s.reqs && !Logged(s.server.log, r.client, r.seqNum)
    ensures Unanswered(s, r)
  {
    hide LogInv;
    hide ThreadsInv;
    hide HistOk;
    hide MainInv;
    hide TableInv;
    assert Issued(s, r) && ClientOk(s, r.client);
  }

  // The claim of an idle while a get or put is under way.
  lemma EnrollAside(s: Sys, r: Req, s1: Sys)
    requires SysInv(s) && r in s.reqs && r.opcode == 0 && Enrolls(s, r, s1)
    ensures MainInv(s1)
  {
    hide LogInv;
    hide ThreadsInv;
    hide HistOk;
    hide FbsOk;
    hide ClientOk;
    hide Logged;
    hide ResultOk;
    hide TableOk;
    assert TableOk(s.server.table) && Issued(s, r);
    ClaimKeepsTable(s.server.table, r);
    if Compare(s.server.table, r).New? {
      NewNotWorking(s, r);
      if s.server.main.Answering? && s.server.main.i == Slot(s.server.table, r.client) { LateAnswer(s, r); }
    }
  }

  // A slot that moves on while main is about to answer from it already has the result.
  lemma LateAnswer(s: Sys, r: Req)
    requires SysInv(s) && r in s.reqs && s.server.main.Answering? && s.server.main.i == Slot(s.server.table, r.client)
    requires Slot(s.server.table, r.client) < TABLESIZE && Compare(s.server.table, r).New?
    ensures ResultOk(s.server.log, s.server.main.r.client, s.server.main.r.seqNum, s.server.table[s.server.main.i].result)
  {
    hide LogInv;
    hide ThreadsInv;
    hide HistOk;
    hide FbsOk;
    hide ResultOk;
    hide Logged;
    var q, e := s.server.main.r, s.server.table[s.server.main.i];
    assert Issued(s, r) && Issued(s, q) && ClientOk(s, q.client);
    if q.seqNum == e.seqNum { assert Logged(s.server.log, q.client, q.seqNum); }
  }

  lemma EnrollRest(s: Sys, r: Req, s1: Sys)
    requires SysInv(s) && Enrolls(s, r, s1)
    ensures ReqsOk(s1) && ClientsOk(s1) && FbsOk(s1) && HistOk(s1) && |s1.clients| <= TABLESIZE
  {
    hide LogInv;
    hide TableInv;
    hide MainInv;
    hide ThreadsInv;
    hide Claim;
    hide ResultOk;
    hide CallOk;
    hide Logged;
    EnrollShape(s, r, s1);
  }

  /** A lookup and claim keeps the invariant, whatever the get or put thread is doing. */
  lemma EnrollInv(s: Sys, r: Req, s1: Sys)
    requires SysInv(s) && r in s.reqs && Enrolls(s, r, s1)
    ensures SysInv(s1)
  {
    hide ReqsOk;
    hide ClientsOk;
    hide LogInv;
    hide TableInv;
    hide MainInv;
    hide ThreadsInv;
    hide FbsOk;
    hide HistOk;
    EnrollShape(s, r, s1);
    ClaimTableInv(s, r, s1);
    ClaimLogInv(s, r, s1);
    if r.opcode == 0 { EnrollAside(s, r, s1); } else { EnrollMain(s, r, s1); }
    EnrollThreads(s, r, s1);
    EnrollRest(s, r, s1);
  }

  // ---------------------------------------------------------------- the main thread

  lemma FoldAppend(log: seq<Exec>, e: Exec)
    requires LogSequential(log) && Defined(e.r) && e.val == ExecVal(Fold(log), e.r)
    ensures LogSequential(log + [e]) && Fold(log + [e]) == ExecStore(Fold(log), e.r)
  {
    var log1 := log + [e];
    assert log1[..|log1| - 1] == log;
    forall i | 0 <= i < |log1| ensures log1[i].val == ExecVal(Fold(log1[..i]), log1[i].r) {
      if i < |log| { assert log1[..i] == log[..i]; } else { assert log1[..i] == log; }
    }
  }

  // Appending an execution of a request that had none.
  ghost predicate Extends(log: seq<Exec>, log1: seq<Exec>, e: Exec) {
    log1 == log + [e] && !Logged(log, e.r.client, e.r.seqNum)
  }

  lemma LoggedGrows(log: seq<Exec>, log1: seq<Exec>, e: Exec, c: int, n: int)
    requires Extends(log, log1, e)
    ensures Logged(log1, c, n) <==> Logged(log, c, n) || (c == e.r.client && n == e.r.seqNum)
    ensures forall val | ResultOk(log, c, n, val) :: ResultOk(log1, c, n, val)
  {
    if Logged(log, c, n) {
      var i :| At(log, i, c, n);
      assert At(log1, i, c, n);
    }
    if c == e.r.client && n == e.r.seqNum { assert At(log1, |log|, c, n); }
    if Logged(log1, c, n) {
      var i :| At(log1, i, c, n);
      assert i < |log| ==> At(log, i, c, n);
    }
    forall val | ResultOk(log, c, n, val) ensures ResultOk(log1, c, n, val) {
      forall i | At(log1, i, c, n) && log1[i].r.opcode != 0 ensures log1[i].val == val {
        assert i < |log| ==> At(log, i, c, n);
      }
    }
  }

  lemma CallOkGrows(log: seq<Exec>, log1: seq<Exec>, k: Call)
    requires CallOk(log, k) && log <= log1
    ensures CallOk(log1, k)
  {
    var i :| At(log, i, k.r.client, k.r.seqNum) && k.begin <= i < k.end
      && log[i].r == k.r && (k.r.opcode != 0 ==> log[i].val == k.val);
    assert At(log1, i, k.r.client, k.r.seqNum);
  }

  lemma ClientOkGrows(s: Sys, s1: Sys, e: Exec, c: int)
    requires c in s.clients && ClientOk(s, c) && s1.clients == s.clients && Extends(s.server.log, s1.server.log, e)
    ensures ClientOk(s1, c)
  {
    hide Extends;
    hide Logged;
    forall n | 0 <= n < s.clients[c].seqNum ensures Logged(s1.server.log, c, n) {
      LoggedGrows(s.server.log, s1.server.log, e, c, n);
    }
    ExtendsPrefix(s.server.log, s1.server.log, e);
    if s.clients[c].pending.Some? {
      var begin := s.clients[c].pending.value.1;
      forall i | 0 <= i < begin ensures !At(s1.server.log, i, c, s.clients[c].seqNum) {
        assert !At(s.server.log, i, c, s.clients[c].seqNum);
      }
    }
  }

  lemma ExtendsPrefix(log: seq<Exec>, log1: seq<Exec>, e: Exec)
    requires Extends(log, log1, e)
    ensures log <= log1 && |log1| == |log| + 1 && log1[|log|] == e
    ensures forall i | 0 <= i < |log| :: log1[i] == log[i]
  {
  }

  /** What appending one execution keeps, whoever appends it. */
  lemma AppendKeeps(s: Sys, s1: Sys, e: Exec)
    requires SysInv(s) && Extends(s.server.log, s1.server.log, e) && e.r in s.reqs
    requires s1.reqs == s.reqs && s1.fbs == s.fbs && s1.clients == s.clients && s1.hist == s.hist
    requires Defined(e.r) && e.val == ExecVal(s.server.store, e.r) && s1.server.store == ExecStore(s.server.store, e.r)
    requires SlotCovers(s1.server.table, e.r.client, e.r.seqNum)
    requires forall i | 0 <= i < TABLESIZE :: s1.server.table[i].client == s.server.table[i].client && s1.server.table[i].seqNum == s.server.table[i].seqNum
    ensures ReqsOk(s1) && ClientsOk(s1) && LogInv(s1) && FbsOk(s1) && HistOk(s1)
  {
    AppendRest(s, s1, e);
    AppendLog(s, s1, e);
  }

  lemma AppendRest(s: Sys, s1: Sys, e: Exec)
    requires SysInv(s) && Extends(s.server.log, s1.server.log, e)
    requires s1.reqs == s.reqs && s1.fbs == s.fbs && s1.clients == s.clients && s1.hist == s.hist
    ensures ReqsOk(s1) && ClientsOk(s1) && FbsOk(s1) && HistOk(s1)
  {
    hide LogInv;
    hide TableInv;
    hide MainInv;
    hide ThreadsInv;
    hide Extends;
    hide ClientOk;
    hide ResultOk;
    hide CallOk;
    forall c | c in s.clients ensures ClientOk(s1, c) {
      ClientOkGrows(s, s1, e, c);
    }
    forall fb | fb in s.fbs && !fb.ack ensures ResultOk(s1.server.log, fb.client, fb.seqNum, fb.val) {
      LoggedGrows(s.server.log, s1.server.log, e, fb.client, fb.seqNum);
    }
    ExtendsPrefix(s.server.log, s1.server.log, e);
    forall k | 0 <= k < |s1.hist| ensures CallOk(s1.server.log, s1.hist[k]) {
      CallOkGrows(s.server.log, s1.server.log, s.hist[k]);
    }
  }

  lemma AppendLog(s: Sys, s1: Sys, e: Exec)
    requires SysInv(s) && Extends(s.server.log, s1.server.log, e) && e.r in s.reqs && s1.reqs == s.reqs
    requires Defined(e.r) && e.val == ExecVal(s.server.store, e.r) && s1.server.store == ExecStore(s.server.store, e.r)
    requires SlotCovers(s1.server.table, e.r.client, e.r.seqNum)
    requires forall i | 0 <= i < TABLESIZE :: s1.server.table[i].client == s.server.table[i].client && s1.server.table[i].seqNum == s.server.table[i].seqNum
    ensures LogInv(s1)
  {
    hide TableInv;
    hide MainInv;
    hide ThreadsInv;
    hide FbsOk;
    hide HistOk;
    hide ClientsOk;
    hide LogSequential;
    assert Issued(s, e.r);
    FoldAppend(s.server.log, e);
    var log, log1 := s.server.log, s1.server.log;
    forall i, j | 0 <= i < j < |log1|
      ensures log1[i].r.client != log1[j].r.client || log1[i].r.seqNum != log1[j].r.seqNum
    {
      assert !At(log, i, e.r.client, e.r.seqNum);
    }
  }

  // Everything but the table, the main thread and the threads, when the log stays.
  ghost predicate SameCalls(s: Sys, s1: Sys) {
    && s1.reqs == s.reqs && s1.clients == s.clients && s1.hist == s.hist
    && s1.server.log == s.server.log && s1.server.store == s.server.store
  }

  ghost predicate SameIds(t: Table, t1: Table) {
    forall i | 0 <= i < TABLESIZE :: t1[i].client == t[i].client && t1[i].seqNum == t[i].seqNum
  }

  lemma QuietKeeps(s: Sys, s1: Sys)
    requires SysInv(s) && SameCalls(s, s1) && SameIds(s.server.table, s1.server.table)
    ensures ReqsOk(s1) && ClientsOk(s1) && LogInv(s1) && HistOk(s1)
  {
    hide TableInv;
    hide MainInv;
    hide ThreadsInv;
    hide FbsOk;
    hide LogSequential;
    hide AtMostOnce;
    hide CallOk;
    forall i | 0 <= i < |s1.server.log|
      ensures SlotCovers(s1.server.table, s1.server.log[i].r.client, s1.server.log[i].r.seqNum)
    {
      assert SlotCovers(s.server.table, s.server.log[i].r.client, s.server.log[i].r.seqNum);
    }
    forall c | c in s1.clients ensures ClientOk(s1, c) { assert ClientOk(s, c); }
  }

  /** What slot i holds answers a repeated request rightly, except while its result is being
      stored; and even then if the request is an idle. */
  lemma AnswerOk(s: Sys, i: nat, r: Req)
    requires SysInv(s) && i < TABLESIZE && r in s.reqs && s.server.table[i].client == r.client && s.server.table[i].done
    requires r.seqNum <= s.server.table[i].seqNum
    requires r.opcode == 0 || (!s.server.main.Marked? && r.seqNum == s.server.table[i].seqNum)
    ensures ResultOk(s.server.log, r.client, r.seqNum, s.server.table[i].result)
  {
    hide LogSequential;
    hide AtMostOnce;
    hide MainInv;
    hide ThreadsInv;
    hide FbsOk;
    hide HistOk;
    hide SlotCovers;
    var log, c, n := s.server.log, r.client, r.seqNum;
    assert Issued(s, r) && ClientOk(s, c);
    if r.opcode == 0 {
      forall e | At(log, e, c, n) ensures log[e].r.opcode == 0 { assert log[e].r in s.reqs && SameId(log[e].r, r); }
    }
  }

  lemma FbsWith(s: Sys, s1: Sys, o: Option<Feedback>)
    requires FbsOk(s) && s1.server.log == s.server.log && s1.fbs == WithFb(s.fbs, o)
    requires o.Some? && !o.value.ack ==> ResultOk(s.server.log, o.value.client, o.value.seqNum, o.value.val)
    ensures FbsOk(s1)
  {
    hide ResultOk;
  }

  // How an execution may change the table: it keeps every id, and only sets done on e's own slot,
  // when e is an idle.
  ghost predicate MarksOnly(t: Table, t1: Table, e: Exec) {
    && SameIds(t, t1)
    && forall i | 0 <= i < TABLESIZE && t1[i] != t[i] ::
         t1[i].client == e.r.client && t1[i].seqNum == e.r.seqNum && e.r.opcode == 0 && t1[i].result == t[i].result
  }

  lemma AppendTable(s: Sys, s1: Sys, e: Exec)
    requires SysInv(s) && Extends(s.server.log, s1.server.log, e) && MarksOnly(s.server.table, s1.server.table, e)
    requires e.r.client != FREE && s1.clients == s.clients && (s1.server.main == s.server.main || (s.server.main.Claimed? && s1.server.main.Ran?))
    requires forall i | 0 <= i < TABLESIZE && s1.server.table[i].client == e.r.client && s1.server.table[i].seqNum == e.r.seqNum ::
               s1.server.table[i].done || (s1.server.main.Ran? && s1.server.main.i == i)
    ensures TableInv(s1)
  {
    hide LogInv;
    hide ReqsOk;
    hide ClientsOk;
    hide HistOk;
    hide FbsOk;
    hide MainInv;
    hide ThreadsInv;
    hide Logged;
    hide ResultOk;
    hide Extends;
    var t, t1, log1 := s.server.table, s1.server.table, s1.server.log;
    forall i | 0 <= i < TABLESIZE && t1[i].done
      ensures Logged(log1, t1[i].client, t1[i].seqNum)
      ensures !(s1.server.main.Marked? && s1.server.main.i == i) ==> ResultOk(log1, t1[i].client, t1[i].seqNum, t1[i].result)
    {
      LoggedGrows(s.server.log, log1, e, t1[i].client, t1[i].seqNum);
      if t1[i] != t[i] { IdleResult(s.server.log, log1, e, t1[i].result); }
    }
    forall i | 0 <= i < TABLESIZE && t1[i].client != FREE && !t1[i].done && Logged(log1, t1[i].client, t1[i].seqNum)
      ensures s1.server.main.Ran? && s1.server.main.i == i
    {
      LoggedGrows(s.server.log, log1, e, t1[i].client, t1[i].seqNum);
    }
  }

  lemma IdleResult(log: seq<Exec>, log1: seq<Exec>, e: Exec, val: int)
    requires Extends(log, log1, e)
    ensures e.r.opcode == 0 || e.val == val ==> ResultOk(log1, e.r.client, e.r.seqNum, val)
  {
    assert At(log1, |log|, e.r.client, e.r.seqNum);
    forall i | At(log1, i, e.r.client, e.r.seqNum) ensures i == |log| {
      assert i < |log| ==> At(log, i, e.r.client, e.r.seqNum);
    }
  }

  // Two holders of one request are the same: they agree on the request and on the slot.
  lemma OneHolder(s: Sys, i: nat, r: Req, j: nat, q: Req)
    requires SysInv(s) && r in s.reqs && q in s.reqs && SameId(r, q)
    requires Holds(s.server.table, i, r) && Holds(s.server.table, j, q)
    ensures i == j && r == q
  {
    hide LogInv;
    hide ClientsOk;
    hide MainInv;
    hide ThreadsInv;
    hide FbsOk;
    hide HistOk;
    assert Issued(s, r);
  }

  // No other slot has that client.
  lemma OneSlot(s: Sys, i: nat, r: Req)
    requires SysInv(s) && r in s.reqs && i < TABLESIZE && s.server.table[i].client == r.client
    ensures r.client != FREE && forall j | 0 <= j < TABLESIZE && s.server.table[j].client == r.client :: j == i
  {
    hide LogInv;
    hide ClientsOk;
    hide MainInv;
    hide ThreadsInv;
    hide FbsOk;
    hide HistOk;
    assert Issued(s, r);
  }

  lemma AppendThreads(s: Sys, s1: Sys, e: Exec, j: nat)
    requires SysInv(s) && Extends(s.server.log, s1.server.log, e) && MarksOnly(s.server.table, s1.server.table, e)
    requires s1.reqs == s.reqs && e.r in s.reqs && Holds(s.server.table, j, e.r)
    requires s1.server.threads == s.server.threads - multiset{Sleeper(j, e.r)}
    ensures ThreadsInv(s1)
  {
    hide LogInv;
    hide ClientsOk;
    hide MainInv;
    hide TableInv;
    hide FbsOk;
    hide HistOk;
    hide Logged;
    hide Extends;
    forall th | th in s1.server.threads ensures ThreadOk(s1, th) {
      assert ThreadOk(s, th);
      LoggedGrows(s.server.log, s1.server.log, e, th.r.client, th.r.seqNum);
      if th.Sleeper? && SameId(th.r, e.r) { OneHolder(s, th.i, th.r, j, e.r); }
    }
  }

  lemma RunMain(s: Sys, s1: Sys)
    requires SysInv(s) && s.server.main.Claimed? && Step(s, Main) == Some(s1)
    ensures SysInv(s1)
  {
    hide LogInv;
    hide ReqsOk;
    hide ClientsOk;
    hide TableInv;
    hide ThreadsInv;
    hide HistOk;
    hide FbsOk;
    hide ExecVal;
    hide ExecStore;
    var r, sv := s.server.main.r, s.server;
    var e := Exec(r, ExecVal(sv.store, r));
    assert SlotCovers(s1.server.table, r.client, r.seqNum);
    AppendKeeps(s, s1, e);
    IdleResult(sv.log, s1.server.log, e, e.val);
    OneSlot(s, sv.main.i, r);
    AppendTable(s, s1, e);
    NotAsleep(s);
    assert s1.server.threads == sv.threads - multiset{Sleeper(sv.main.i, r)};
    AppendThreads(s, s1, e, sv.main.i);
  }

  // Nobody sleeps over a get or put.
  lemma NotAsleep(s: Sys)
    requires SysInv(s) && s.server.main.Claimed?
    ensures Sleeper(s.server.main.i, s.server.main.r) !in s.server.threads
  {
    hide LogInv;
    hide ReqsOk;
    hide ClientsOk;
    hide TableInv;
    hide HistOk;
    hide FbsOk;
    var th := Sleeper(s.server.main.i, s.server.main.r);
    assert th in s.server.threads ==> ThreadOk(s, th);
  }

  lemma Wake(s: Sys, th: Thread, s1: Sys)
    requires SysInv(s) && th.Sleeper? && Step(s, Action.Thread(th)) == Some(s1)
    ensures SysInv(s1)
  {
    hide LogInv;
    hide ReqsOk;
    hide ClientsOk;
    hide TableInv;
    hide MainInv;
    hide HistOk;
    hide FbsOk;
    assert ThreadOk(s, th);
    ThreadReq(s, th);
    var e := Exec(th.r, -1);
    assert s1.server.table[th.i].client == th.r.client && s1.server.table[th.i].seqNum == th.r.seqNum;
    assert SlotCovers(s1.server.table, th.r.client, th.r.seqNum);
    AppendKeeps(s, s1, e);
    OneSlot(s, th.i, th.r);
    AppendTable(s, s1, e);
    AppendThreads(s, s1, e, th.i);
    WakeMain(s, th, s1);
  }

  lemma ThreadReq(s: Sys, th: Thread)
    requires SysInv(s) && th in s.server.threads
    ensures ReqOk(th.r) && th.r in s.reqs
  {
    hide LogInv;
    hide ClientsOk;
    hide TableInv;
    hide MainInv;
    hide HistOk;
    hide FbsOk;
    assert ThreadOk(s, th) && Issued(s, th.r);
  }

  lemma WakeExtends(s: Sys, th: Thread, s1: Sys)
    requires SysInv(s) && th.Sleeper? && Step(s, Action.Thread(th)) == Some(s1)
    ensures Extends(s.server.log, s1.server.log, Exec(th.r, -1))
  {
    hide LogInv;
    hide ReqsOk;
    hide ClientsOk;
    hide TableInv;
    hide MainInv;
    hide HistOk;
    hide FbsOk;
    assert ThreadOk(s, th);
  }

  lemma WakeMain(s: Sys, th: Thread, s1: Sys)
    requires SysInv(s) && th.Sleeper? && Step(s, Action.Thread(th)) == Some(s1)
    ensures MainInv(s1)
  {
    hide LogInv;
    hide ReqsOk;
    hide ClientsOk;
    hide TableInv;
    hide HistOk;
    hide FbsOk;
    hide Logged;
    hide ResultOk;
    hide Extends;
    assert ThreadOk(s, th);
    var m := s.server.main;
    if !m.Ready? {
      WakeExtends(s, th, s1);
      LoggedGrows(s.server.log, s1.server.log, Exec(th.r, -1), m.r.client, m.r.seqNum);
      if Working(m) && (m.i == th.i || SameId(m.r, th.r)) { OneHolder(s, m.i, m.r, th.i, th.r); }
    }
  }

  lemma MarkMain(s: Sys, s1: Sys)
    requires SysInv(s) && (s.server.main.Ran? || s.server.main.Marked?) && Step(s, Main) == Some(s1)
    ensures SysInv(s1)
  {
    hide LogInv;
    hide ReqsOk;
    hide ClientsOk;
    hide TableInv;
    hide ThreadsInv;
    hide HistOk;
    hide FbsOk;
    QuietKeeps(s, s1);
    FbsWith(s, s1, None);
    MarkTable(s, s1);
    MarkThreads(s, s1);
  }

  lemma MarkTable(s: Sys, s1: Sys)
    requires SysInv(s) && (s.server.main.Ran? || s.server.main.Marked?) && Step(s, Main) == Some(s1)
    ensures TableInv(s1)
  {
    hide LogInv;
    hide ClientsOk;
    hide ThreadsInv;
    hide HistOk;
    hide FbsOk;
    hide Logged;
    assert Issued(s, s.server.main.r);
  }

  lemma MarkThreads(s: Sys, s1: Sys)
    requires SysInv(s) && (s.server.main.Ran? || s.server.main.Marked?) && Step(s, Main) == Some(s1)
    ensures ThreadsInv(s1)
  {
    hide LogInv;
    hide ReqsOk;
    hide ClientsOk;
    hide TableInv;
    hide HistOk;
    hide FbsOk;
    hide Logged;
    hide ResultOk;
    forall th | th in s1.server.threads ensures ThreadOk(s1, th) {
      assert ThreadOk(s, th);
      if th.Sleeper? && th.i == s.server.main.i { OneHolder(s, th.i, th.r, s.server.main.i, s.server.main.r); }
    }
  }

  lemma AnswerMain(s: Sys, s1: Sys)
    requires SysInv(s) && s.server.main.Answering? && Step(s, Main) == Some(s1)
    ensures SysInv(s1)
  {
    hide LogInv;
    hide ReqsOk;
    hide ClientsOk;
    hide HistOk;
    hide FbsOk;
    hide Logged;
    hide ResultOk;
    hide TableOk;
    var m := s.server.main;
    if s.server.table[m.i].done && m.r.seqNum == s.server.table[m.i].seqNum { AnswerOk(s, m.i, m.r); }
    QuietKeeps(s, s1);
    FbsWith(s, s1, Some(Answer(s.server.table, m.i, m.r)));
    forall th | th in s1.server.threads ensures ThreadOk(s1, th) { assert ThreadOk(s, th); }
  }

  // main never serves the request of an idle thread.
  lemma IdleNotMain(s: Sys, th: Thread)
    requires SysInv(s) && th in s.server.threads && !s.server.main.Ready?
    ensures !SameId(th.r, s.server.main.r)
  {
    hide ClientsOk;
    hide LogInv;
    hide TableInv;
    hide FbsOk;
    hide HistOk;
    assert ThreadOk(s, th);
  }

  lemma AnswerThread(s: Sys, th: Thread, s1: Sys)
    requires SysInv(s) && th.Replier? && Step(s, Action.Thread(th)) == Some(s1)
    ensures SysInv(s1)
  {
    hide LogInv;
    hide ReqsOk;
    hide ClientsOk;
    hide HistOk;
    hide FbsOk;
    hide Logged;
    hide ResultOk;
    hide TableOk;
    assert ThreadOk(s, th);
    if !s.server.main.Ready? { IdleNotMain(s, th); }
    if s.server.table[th.i].done { AnswerOk(s, th.i, th.r); }
    QuietKeeps(s, s1);
    FbsWith(s, s1, Some(Answer(s.server.table, th.i, th.r)));
    forall q | q in s1.server.threads ensures ThreadOk(s1, q) { assert ThreadOk(s, q); }
  }

  // ---------------------------------------------------------------- runs

  lemma StepInv(s: Sys, a: Action)
    requires SysInv(s) && Step(s, a).Some?
    ensures SysInv(Step(s, a).value)
  {
    hide SysInv;
    match a
    case Join(c) => JoinInv(s, c);
    case Begin(c, opcode, time, key, value) => BeginInv(s, c, opcode, time, key, value);
    case Send(c) => SendInv(s, c);
    case Deliver(r) => DeliverInv(s, r);
    case Main =>
      var s1 := Step(s, a).value;
      match s.server.main {
        case Spawned(r) => SpawnedEnrolls(s, s1);
        case Claimed(_, _) => RunMain(s, s1);
        case Answering(_, _) => AnswerMain(s, s1);
        case _ => MarkMain(s, s1);
      }
    case Thread(th) =>
      var s1 := Step(s, a).value;
      match th {
        case Starter(r) => StarterEnrolls(s, th, s1);
        case Sleeper(_, _) => Wake(s, th, s1);
        case Replier(_, _) => AnswerThread(s, th, s1);
      }
    case Reply(c, fb) => ReplyInv(s, c, fb);
  }

  lemma SpawnedEnrolls(s: Sys, s1: Sys)
    requires SysInv(s) && s.server.main.Spawned? && Step(s, Main) == Some(s1)
    ensures SysInv(s1)
  {
    hide SysInv;
    hide Enroll;
    var r := s.server.main.r;
    SpawnedReq(s);
    assert Enrolls(s, r, s1);
    EnrollInv(s, r, s1);
  }

  lemma SpawnedReq(s: Sys)
    requires SysInv(s) && !s.server.main.Ready?
    ensures s.server.main.r in s.reqs && s.server.main.r.opcode != 0
  {
    hide ReqsOk;
    hide ClientsOk;
    hide LogInv;
    hide TableInv;
    hide ThreadsInv;
    hide FbsOk;
    hide HistOk;
  }

  lemma StarterEnrolls(s: Sys, th: Thread, s1: Sys)
    requires SysInv(s) && th.Starter? && Step(s, Action.Thread(th)) == Some(s1)
    ensures SysInv(s1)
  {
    hide SysInv;
    hide Enroll;
    StarterReq(s, th);
    assert Enrolls(s, th.r, s1);
    EnrollInv(s, th.r, s1);
  }

  lemma StarterReq(s: Sys, th: Thread)
    requires SysInv(s) && th in s.server.threads
    ensures th.r in s.reqs && th.r.opcode == 0
  {
    hide ReqsOk;
    hide ClientsOk;
    hide LogInv;
    hide TableInv;
    hide MainInv;
    hide FbsOk;
    hide HistOk;
    assert ThreadOk(s, th);
  }

  /** The state after a run; None when some step was not possible. */
  function Run(s: Sys, run: seq<Action>): Option<Sys>
    decreases |run|
  {
    if run == [] then Some(s)
    else match Step(s, run[0]) case None => None case Some(s1) => Run(s1, run[1..])
  }

  lemma {:induction false} RunInv(s: Sys, run: seq<Action>)
    requires SysInv(s) && Run(s, run).Some?
    ensures SysInv(Run(s, run).value)
    decreases |run|
  {
    hide SysInv;
    hide Step;
    if run != [] {
      StepInv(s, run[0]);
      RunInv(Step(s, run[0]).value, run[1..]);
    }
  }

  /** The main theorem: over any run, whatever the network loses, repeats or reorders, every
      call that has returned was executed exactly once, while it was in progress, and returned
      that execution's result; and the store is what the logged operations make of it. */
  lemma RunsAreLinearizable(run: seq<Action>)
    requires Run(Init(), run).Some?
    ensures Linearizable(Run(Init(), run).value)
  {
    InitInv();
    RunInv(Init(), run);
    InvIsLinearizable(Run(Init(), run).value);
  }

  /** Two calls, one of which returned before the other began, took effect in that order. */
  lemma RealTimeOrder(run: seq<Action>, a: int, b: int)
    requires Run(Init(), run).Some?
    requires var h := Run(Init(), run).value.hist; 0 <= a < |h| && 0 <= b < |h| && h[a].end <= h[b].begin
    ensures var s := Run(Init(), run).value;
      exists i, j ::
        && i < j
        && At(s.server.log, i, s.hist[a].r.client, s.hist[a].r.seqNum)
        && At(s.server.log, j, s.hist[b].r.client, s.hist[b].r.seqNum)
  {
    hide Run;
    RunsAreLinearizable(run);
    var s := Run(Init(), run).value;
    var x, y := s.hist[a], s.hist[b];
    var i :| At(s.server.log, i, x.r.client, x.r.seqNum) && x.begin <= i < x.end
      && s.server.log[i].r == x.r && (x.r.opcode != 0 ==> s.server.log[i].val == x.val);
    var j :| At(s.server.log, j, y.r.client, y.r.seqNum) && y.begin <= j < y.end
      && s.server.log[j].r == y.r && (y.r.opcode != 0 ==> s.server.log[j].val == y.val);
    assert i < j;
  }

  /** With at most 100 clients every thread that looks its client up finds a slot: no step of the
      server is held up but by main's waiting, or undefined but for the key. */
  lemma SlotAlwaysFound(run: seq<Action>)
    requires Run(Init(), run).Some?
    ensures var s := Run(Init(), run).value.server;
      && (forall th | th in s.threads :: IdleOk(s, th))
      && (MainOk(s) <==> s.main.Claimed? ==> Defined(s.main.r))
  {
    hide Run;
    InitInv();
    RunInv(Init(), run);
    var s := Run(Init(), run).value;
    if !s.server.main.Ready? {
      SpawnedReq(s);
      SlotForRequest(s, s.server.main.r);
    }
    forall th | th in s.server.threads ensures IdleOk(s.server, th) {
      StarterReq(s, th);
      SlotForRequest(s, th.r);
      assert ThreadOk(s, th);
    }
  }

  lemma SlotForRequest(s: Sys, r: Req)
    requires SysInv(s) && r in s.reqs
    ensures Slot(s.server.table, r.client) < TABLESIZE
  {
    assert Issued(s, r) && r.client in s.clients;
    SlotExists(s.server.table, r.client, s.clients.Keys);
  }
}
