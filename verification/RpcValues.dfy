/** What the calls of P8_Distributed_Systems return, in terms of the requests executed before them. */
module RpcValues {
  import opened RpcServer
  import opened Wrappers
  import opened RpcSystem

  // Execution j is a put to key k.
  ghost predicate PutTo(log: seq<Exec>, j: int, k: int) {
    0 <= j < |log| && log[j].r.opcode != 0 && log[j].r.opcode != 1 && log[j].r.key == k
  }

  /** v is the value of the last put to key k among the first n executions, or 0 if there is none. */
  ghost predicate LastPut(log: seq<Exec>, n: nat, k: int, v: int) {
    || (v == 0 && forall l | 0 <= l < n :: !PutTo(log, l, k))
    || (exists j :: 0 <= j < n && PutTo(log, j, k) && log[j].r.value == v && forall l | j < l < n :: !PutTo(log, l, k))
  }

  /** What the get or put that is execution i returns: a get of a key in range the value last put
      there, a put 0, and either of them -1 outside the range. */
  ghost predicate Returns(log: seq<Exec>, i: nat, v: int)
    requires i < |log|
  {
    var r := log[i].r;
    r.opcode != 0 ==>
      if r.key < 0 || r.key > 1024 then v == -1
      else r.key != 1024 && if r.opcode == 1 then LastPut(log, i, r.key, v) else v == 0
  }

  lemma LastPutOn(log: seq<Exec>, e: Exec, k: int, v: int)
    requires LastPut(log, |log|, k, v)
    ensures LastPut(log + [e], |log| + 1, k, if e.r.opcode != 0 && e.r.opcode != 1 && e.r.key == k then e.r.value else v)
  {
    var log1 := log + [e];
    assert forall l | 0 <= l < |log| :: PutTo(log1, l, k) <==> PutTo(log, l, k);
    if PutTo(log1, |log|, k) {
    } else if exists j :: 0 <= j < |log| && PutTo(log, j, k) && log[j].r.value == v && forall l | j < l < |log| :: !PutTo(log, l, k) {
      var j :| 0 <= j < |log| && PutTo(log, j, k) && log[j].r.value == v && forall l | j < l < |log| :: !PutTo(log, l, k);
      assert PutTo(log1, j, k) && log1[j].r.value == v && forall l | j < l < |log1| :: !PutTo(log1, l, k);
    }
  }

  /** The store holds what was last put. */
  lemma {:induction false} FoldHolds(log: seq<Exec>, k: nat)
    requires LogOk(log) && k < 1024
    ensures LastPut(log, |log|, k, Fold(log)[k])
    decreases |log|
  {
    hide LastPut;
    if log == [] {
      NoPut(k);
    } else {
      var before := log[..|log| - 1];
      assert before + [log[|log| - 1]] == log;
      FoldHolds(before, k);
      LastPutOn(before, log[|log| - 1], k, Fold(before)[k]);
    }
  }

  lemma NoPut(k: int)
    ensures LastPut([], 0, k, 0)
  {
  }

  lemma LastPutBelow(log: seq<Exec>, i: nat, k: int, v: int)
    requires i <= |log| && LastPut(log[..i], i, k, v)
    ensures LastPut(log, i, k, v)
  {
    assert forall l | 0 <= l < i :: PutTo(log[..i], l, k) <==> PutTo(log, l, k);
    if exists j :: 0 <= j < i && PutTo(log[..i], j, k) && log[..i][j].r.value == v && forall l | j < l < i :: !PutTo(log[..i], l, k) {
      var j :| 0 <= j < i && PutTo(log[..i], j, k) && log[..i][j].r.value == v && forall l | j < l < i :: !PutTo(log[..i], l, k);
      assert PutTo(log, j, k) && log[j].r.value == v;
    }
  }

  lemma SequentialReturns(log: seq<Exec>, i: nat)
    requires LogSequential(log) && i < |log|
    ensures Returns(log, i, log[i].val)
  {
    hide LastPut;
    hide Fold;
    var r := log[i].r;
    if 0 <= r.key < 1024 {
      assert |log[..i]| == i;
      FoldHolds(log[..i], r.key);
      LastPutBelow(log, i, r.key, Fold(log[..i])[r.key]);
    }
  }

  /** In every run each execution of a get or put has the value that the puts before it make it. */
  lemma LogReturns(run: seq<Action>, i: nat)
    requires Run(Init(), run).Some? && i < |Run(Init(), run).value.server.log|
    ensures var log := Run(Init(), run).value.server.log; Returns(log, i, log[i].val)
  {
    hide Run;
    hide Returns;
    RunsAreLinearizable(run);
    SequentialReturns(Run(Init(), run).value.server.log, i);
  }

  /** And each finished call returned the value of one execution of its request, which took place
      while the call was in progress. */
  lemma CallReturns(run: seq<Action>, k: nat)
    requires Run(Init(), run).Some? && k < |Run(Init(), run).value.hist|
    ensures var (log, call) := (Run(Init(), run).value.server.log, Run(Init(), run).value.hist[k]);
      exists i: nat :: call.begin <= i < call.end <= |log| && log[i].r == call.r && Returns(log, i, call.val)
  {
    hide Run;
    hide Returns;
    RunsAreLinearizable(run);
    var (log, call) := (Run(Init(), run).value.server.log, Run(Init(), run).value.hist[k]);
    var i :| At(log, i, call.r.client, call.r.seqNum) && call.begin <= i < call.end
      && log[i].r == call.r && (call.r.opcode != 0 ==> log[i].val == call.val);
    SequentialReturns(log, i);
    IdleReturns(log, i, call.val);
  }

  lemma IdleReturns(log: seq<Exec>, i: nat, v: int)
    requires i < |log|
    ensures log[i].r.opcode == 0 ==> Returns(log, i, v)
  {
  }

  /** The store of the server holds, for each key, what was last put there. */
  lemma StoreHolds(run: seq<Action>, k: nat)
    requires Run(Init(), run).Some? && k < 1024
    ensures var s := Run(Init(), run).value.server; LastPut(s.log, |s.log|, k, s.store[k])
  {
    hide Run;
    hide LastPut;
    RunsAreLinearizable(run);
    FoldHolds(Run(Init(), run).value.server.log, k);
  }
}
