/** server.c, server_functions.c and client.c of P8_Distributed_Systems as they change state in
    place.  Each method is one critical section of the source, and does on the arrays what the
    step system's function does on values. */
module RpcProgram {
  import opened RpcServer
  import opened Wrappers
  import opened RpcSystem

  class KvServer {
    const table: array<Entry>
    const datastore: array<int>

    ghost predicate Valid()
      reads this, table, datastore
    {
      table.Length == TABLESIZE && datastore.Length == NUMKEYS
    }

    ghost function Table(): Table
      reads this, table, datastore
      requires Valid()
    {
      table[..]
    }

    ghost function Store(): Store
      reads this, table, datastore
      requires Valid()
    {
      datastore[..]
    }

    constructor ()
      ensures Valid() && fresh(table) && fresh(datastore)
      ensures Table() == EmptyTable() && Store() == EmptyStore()
    {
      table := new Entry[TABLESIZE](i => Entry(0, 0, false, 0));
      datastore := new int[NUMKEYS](i => 0);
      new;
      for i := 0 to TABLESIZE
        invariant Valid() && fresh(table) && fresh(datastore) && Store() == EmptyStore()
        invariant forall j | 0 <= j < i :: table[j] == Entry(FREE, -1, false, -1)
      {
        table[i] := Entry(FREE, -1, false, -1);
      }
    }

    /** Lookup and claim: the client's slot and how the request compares with it.  With no slot
        the program goes on with index -1, which is undefined; kind is None. */
    method Claim(req: Req) returns (found: int, kind: Option<Kind>)
      requires Valid()
      modifies table
      ensures Valid() && (kind.None? <==> Slot(old(Table()), req.client) == TABLESIZE)
      ensures kind.None? ==> found == -1 && Table() == old(Table())
      ensures kind.Some? ==> found == Slot(old(Table()), req.client) && kind.value == Compare(old(Table()), req)
      ensures kind.Some? ==> Table() == RpcServer.Claim(old(Table()), req)
    {
      found := -1;
      var next, i := -1, 0;
      while i < TABLESIZE && next == -1 && found == -1
        invariant 0 <= i <= TABLESIZE && -1 <= next < TABLESIZE && -1 <= found < TABLESIZE
        invariant next == -1 && found == -1 ==> Slot(Table(), req.client) == Scan(Table(), req.client, i)
        invariant next != -1 ==> next == Slot(Table(), req.client) && table[next].client == FREE && found == -1
        invariant found != -1 ==> found == Slot(Table(), req.client) && table[found].client == req.client
      {
        if table[i].client == FREE {
          next := i;
        } else if table[i].client == req.client {
          found := i;
        }
        i := i + 1;
      }
      if next != -1 {
        table[next] := table[next].(client := req.client);
        found := next;
      }
      if found == -1 { return -1, None; }
      ghost var entered := Table();
      assert entered == Enter(old(Table()), req.client);
      var stored := table[found].seqNum;
      if stored > req.seqNum {
        kind := Some(Old);
      } else if stored == req.seqNum {
        kind := Some(Same);
      } else {
        kind := Some(New);
        table[found] := table[found].(done := false);
        table[found] := table[found].(seqNum := req.seqNum);
        assert Table() == entered[found := Entry(req.client, req.seqNum, false, entered[found].result)];
      }
    }

    /** The answer to a repeated request. */
    method Reply(found: nat, req: Req) returns (fb: Feedback)
      requires Valid() && found < TABLESIZE
      ensures fb == Answer(Table(), found, req)
      ensures fb.client == req.client && fb.seqNum == req.seqNum
      ensures if table[found].done then !fb.ack && fb.val == table[found].result else fb.ack
    {
      if table[found].done {
        fb := Feedback(req.client, req.seqNum, false, table[found].result);
      } else {
        fb := Feedback(req.client, req.seqNum, true, -1);
      }
    }

    /** None for key NUMKEYS: the read is one past the array, which is undefined. */
    method Get(key: int) returns (val: Option<int>)
      requires Valid()
      ensures val.None? <==> key == NUMKEYS
      ensures val.Some? ==> val.value == if key < 0 || key > 1024 then -1 else datastore[key]
    {
      if key > NUMKEYS || key < 0 { return Some(-1); }
      if key == NUMKEYS { return None; }
      return Some(datastore[key]);
    }

    /** None for key NUMKEYS: the write is one past the array, which is undefined. */
    method Put(key: int, value: int) returns (val: Option<int>)
      requires Valid()
      modifies datastore
      ensures Valid() && (val.None? <==> key == NUMKEYS)
      ensures Store() == if key < 0 || key >= 1024 then old(Store()) else old(Store())[key := value]
      ensures val.Some? ==> val.value == if key < 0 || key > 1024 then -1 else 0
    {
      if key > NUMKEYS || key < 0 { return Some(-1); }
      if key == NUMKEYS { return None; }
      datastore[key] := value;
      return Some(0);
    }

    method SetDone(found: nat)
      requires Valid() && found < TABLESIZE
      modifies table
      ensures Valid() && Table() == old(Table())[found := old(Table())[found].(done := true)]
    {
      table[found] := table[found].(done := true);
    }

    method SetResult(found: nat, val: int)
      requires Valid() && found < TABLESIZE
      modifies table
      ensures Valid() && Table() == old(Table())[found := old(Table())[found].(result := val)]
    {
      table[found] := table[found].(result := val);
    }

    /** One step of a get's or put's thread, between two points where idle threads may act: the
        step system's, in place.  ok is false if what it does is undefined. */
    method Advance(main: Main, ghost s: Server) returns (ok: bool, next: Main, fb: Option<Feedback>)
      requires Valid() && s.table == Table() && s.store == Store() && s.main == main && !main.Ready?
      requires main.r.opcode != 0 && (!main.Spawned? ==> main.i < TABLESIZE)
      modifies table, datastore
      ensures Valid() && (ok <==> MainOk(s))
      ensures ok ==> var (s1, o) := MainStep(s); s1.main == next && s1.table == Table() && s1.store == Store() && o == fb
    {
      ok, next, fb := true, Ready, None;
      match main
      case Spawned(r) =>
        var found, kind := Claim(r);
        if kind.None? { return false, main, None; }
        match kind.value {
          case Old =>
          case Same => next := Answering(found, r);
          case New => next := Claimed(found, r);
        }
      case Claimed(i, r) =>
        var val;
        if r.opcode == 1 { val := Get(r.key); } else { val := Put(r.key, r.value); }
        if val.None? { return false, main, None; }
        next := Ran(i, r, val.value);
      case Ran(i, r, val) =>
        SetDone(i);
        next := Marked(i, r, val);
      case Marked(i, r, val) =>
        SetResult(i, val);
      case Answering(i, r) =>
        var answer := Reply(i, r);
        fb := Some(answer);
    }

    /** One step of an idle's thread, likewise; next is None when it exits. */
    method AdvanceIdle(th: Thread, ghost s: Server) returns (ok: bool, next: Option<Thread>, fb: Option<Feedback>)
      requires Valid() && s.table == Table() && s.store == Store() && th in s.threads && th.r.opcode == 0
      requires !th.Starter? ==> th.i < TABLESIZE
      modifies table
      ensures Valid() && (ok <==> IdleOk(s, th))
      ensures ok ==> var (s1, o) := ThreadStep(s, th);
        && s1.table == Table() && s1.store == Store() && o == fb
        && s1.threads == s.threads - multiset{th} + if next.Some? then multiset{next.value} else multiset{}
    {
      ok, next, fb := true, None, None;
      match th
      case Starter(r) =>
        var found, kind := Claim(r);
        if kind.None? { return false, None, None; }
        match kind.value {
          case Old =>
          case Same => next := Some(Replier(found, r));
          case New => next := Some(Sleeper(found, r));
        }
      case Sleeper(i, r) =>
        SetDone(i);
      case Replier(i, r) =>
        var answer := Reply(i, r);
        fb := Some(answer);
    }

    /** A get or put from packet to thread exit, undisturbed: the steps above, one after another. */
    method Serve(req: Req, ghost s: Server) returns (ok: bool, fb: Option<Feedback>)
      requires Valid() && s.table == Table() && s.store == Store() && s.main.Ready? && req.opcode != 0
      modifies table, datastore
      ensures Valid()
      ensures var o := Finish(Receive(s, req).value);
        && (ok <==> o.Some?)
        && (ok ==> o.value.0.main.Ready? && o.value.0.table == Table() && o.value.0.store == Store() && o.value.1 == fb)
    {
      ok, fb := true, None;
      ghost var spawned := Receive(s, req).value;
      var found, kind := Claim(req);
      if kind.None? { return false, None; }
      ghost var enrolled := MainStep(spawned).0;
      assert Finish(spawned) == Finish(enrolled);
      if kind.value == Same {
        var answer := Reply(found, req);
        fb := Some(answer);
      } else if kind.value == New {
        var val;
        if req.opcode == 1 {
          val := Get(req.key);
        } else {
          val := Put(req.key, req.value);
        }
        if val.None? { return false, None; }
        SetDone(found);
        SetResult(found, val.value);
        FinishClaimed(enrolled);
      }
    }
  }

  /** The get or put thread's steps until main is ready for the next packet; None if one of them
      is undefined. */
  ghost function Finish(s: Server): Option<(Server, Option<Feedback>)>
    decreases match s.main
              case Spawned(_) => 4
              case Claimed(_, _) => 3
              case Ran(_, _, _) => 2
              case Marked(_, _, _) => 1
              case Answering(_, _) => 1
              case Ready => 0
  {
    if s.main.Ready? then Some((s, None))
    else if !MainOk(s) then None
    else
      var (s1, o) := MainStep(s);
      if o.Some? then Some((s1, o)) else Finish(s1)
  }

  lemma FinishClaimed(s: Server)
    requires s.main.Claimed? && MainOk(s)
    ensures Finish(s).Some?
    ensures var (s1, o) := Finish(s).value;
      && s1.main.Ready? && o.None? && s1.store == ExecStore(s.store, s.main.r)
      && var t1 := s.table[s.main.i := s.table[s.main.i].(done := true)];
      s1.table == t1[s.main.i := t1[s.main.i].(result := ExecVal(s.store, s.main.r))]
  {
    var ran := MainStep(s).0;
    var marked := MainStep(ran).0;
    var stored := MainStep(marked).0;
    assert Finish(stored) == Some((stored, None)) && Finish(marked) == Finish(stored) && Finish(ran) == Finish(marked);
  }

  // ---------------------------------------------------------------- the client

  const RETRIES: nat := 5

  /** What a call came to: it returned val after used receives, gave up after used of them
      (the process exits), or is still waiting when the inputs considered end. */
  datatype Outcome = Returned(val: int, used: nat) | Died(used: nat) | Waiting

  /** What one timed receive yields for client c's call number n; None is a timeout. */
  predicate IsResult(c: int, n: int, o: Option<Feedback>) { o.Some? && o.value.client == c && o.value.seqNum == n && !o.value.ack }

  predicate IsAck(c: int, n: int, o: Option<Feedback>) { o.Some? && o.value.client == c && o.value.seqNum == n && o.value.ack }

  predicate IsMiss(c: int, n: int, o: Option<Feedback>) { !IsResult(c, n, o) && !IsAck(c, n, o) }

  class RpcConnection {
    var seqNumber: int
    const clientId: int

    constructor (id: int)
      ensures seqNumber == 0 && clientId == id
    {
      seqNumber := 0;
      clientId := id;
    }

    /** The retry loop.  inbox[k] is what the k-th timed receive yields. */
    method SendReqWithRetry(inbox: seq<Option<Feedback>>) returns (out: Outcome)
      modifies this
      ensures OutcomeOk(clientId, old(seqNumber), inbox, out)
      ensures seqNumber == old(seqNumber) + if out.Returned? then 1 else 0
    {
      var retry, k := 0, 0;
      while true
        invariant 0 <= k <= |inbox| && 0 <= retry <= RETRIES && retry <= k && seqNumber == old(seqNumber)
        invariant forall j | 0 <= j < k :: !IsResult(clientId, seqNumber, inbox[j])
        invariant forall j | k - retry <= j < k :: IsMiss(clientId, seqNumber, inbox[j])
        invariant retry < k ==> IsAck(clientId, seqNumber, inbox[k - retry - 1])
        invariant forall j | RETRIES <= j < k :: !GaveUp(clientId, seqNumber, inbox, j)
        invariant retry < RETRIES && RETRIES <= k ==> !GaveUp(clientId, seqNumber, inbox, k)
        decreases |inbox| - k
      {
        if retry == RETRIES { return Died(k); }
        retry := retry + 1;
        if k == |inbox| { return Waiting; }
        var pkg := inbox[k];
        k := k + 1;
        if pkg.Some? {
          var fb := pkg.value;
          if clientId == fb.client && seqNumber == fb.seqNum {
            if fb.ack {
              retry := 0;
            } else {
              seqNumber := seqNumber + 1;
              return Returned(fb.val, k);
            }
          }
        }
      }
    }
  }

  // The last RETRIES of the first k receives were all misses.
  ghost predicate GaveUp(c: int, n: int, inbox: seq<Option<Feedback>>, k: nat)
    requires RETRIES <= k <= |inbox|
  {
    forall j | k - RETRIES <= j < k :: IsMiss(c, n, inbox[j])
  }

  // Nothing among the first k receives ended the call.
  ghost predicate StillTrying(c: int, n: int, inbox: seq<Option<Feedback>>, k: nat)
    requires k <= |inbox|
  {
    && (forall j | 0 <= j < k :: !IsResult(c, n, inbox[j]))
    && (forall j | RETRIES <= j <= k :: !GaveUp(c, n, inbox, j))
  }

  /** The call returns with its first result unless five receives in a row missed before it;
      it dies at the first five misses in a row unless a result came before. */
  ghost predicate OutcomeOk(c: int, n: int, inbox: seq<Option<Feedback>>, out: Outcome)
  {
    match out
    case Returned(v, k) =>
      1 <= k <= |inbox| && StillTrying(c, n, inbox, k - 1) && IsResult(c, n, inbox[k - 1]) && inbox[k - 1].value.val == v
    case Died(k) =>
      RETRIES <= k <= |inbox| && GaveUp(c, n, inbox, k)
      && (forall j | 0 <= j < k :: !IsResult(c, n, inbox[j])) && (forall j | RETRIES <= j < k :: !GaveUp(c, n, inbox, j))
    case Waiting => StillTrying(c, n, inbox, |inbox|)
  }

  /** That fixes the outcome. */
  lemma OutcomeUnique(c: int, n: int, inbox: seq<Option<Feedback>>, a: Outcome, b: Outcome)
    requires OutcomeOk(c, n, inbox, a) && OutcomeOk(c, n, inbox, b)
    ensures a == b
  {
    assert a.Died? ==> GaveUp(c, n, inbox, a.used);
    assert b.Died? ==> GaveUp(c, n, inbox, b.used);
  }

  /** The step system's client handling a list of received packets. */
  ghost function Handle(s: Sys, c: int, inbox: seq<Option<Feedback>>): (s1: Sys)
    requires c in s.clients
    ensures c in s1.clients
  {
    if inbox == [] then s
    else
      var s1 := Handle(s, c, inbox[..|inbox| - 1]);
      if inbox[|inbox| - 1].Some? then ClientStep(s1, c, inbox[|inbox| - 1].value) else s1
  }

  lemma {:induction false} HandleNothing(s: Sys, c: int, inbox: seq<Option<Feedback>>)
    requires c in s.clients && forall j | 0 <= j < |inbox| :: !IsResult(c, s.clients[c].seqNum, inbox[j])
    ensures Handle(s, c, inbox) == s
  {
    if inbox != [] { HandleNothing(s, c, inbox[..|inbox| - 1]); }
  }

  /** The retry loop and the step system's client agree: up to the return only the returning
      packet has any effect, and it finishes the call with the loop's value. */
  lemma RetryLoopIsClientStep(s: Sys, c: int, inbox: seq<Option<Feedback>>, out: Outcome)
    requires c in s.clients && s.clients[c].pending.Some? && OutcomeOk(c, s.clients[c].seqNum, inbox, out)
    ensures out.Died? ==> Handle(s, c, inbox[..out.used]) == s
    ensures out.Waiting? ==> Handle(s, c, inbox) == s
    ensures out.Returned? ==>
      var s1, (r, begin) := Handle(s, c, inbox[..out.used]), s.clients[c].pending.value;
      && s1.clients == s.clients[c := Client(s.clients[c].seqNum + 1, None)]
      && s1.hist == s.hist + [Call(r, out.val, begin, |s.server.log|)]
  {
    match out
    case Returned(v, k) =>
      HandleNothing(s, c, inbox[..k - 1]);
      assert inbox[..k][..k - 1] == inbox[..k - 1];
    case Died(k) => HandleNothing(s, c, inbox[..k]);
    case Waiting => HandleNothing(s, c, inbox);
  }
}
