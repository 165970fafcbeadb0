/** The calls of P8_Distributed_Systems told by the actions of the run: when each was made, what
    it asked for, when it returned and what. */
module RpcCalls {
  import opened RpcServer
  import opened Wrappers
  import opened RpcSystem
  import opened RpcValues

  // How many executions there were before action k.
  ghost function LogSize(run: seq<Action>, k: nat): nat
    requires k <= |run| && Run(Init(), run[..k]).Some?
  {
    |Run(Init(), run[..k]).value.server.log|
  }

  /** Action a makes the call of request r, after n executions. */
  ghost predicate Makes(run: seq<Action>, a: nat, r: Req, n: nat) {
    && a < |run| && Run(Init(), run[..a]).Some? && LogSize(run, a) == n
    && run[a] == Begin(r.client, r.opcode, r.time, r.key, r.value)
  }

  /** Action b ends a call of client c with the result v, after n executions. */
  ghost predicate Ends(run: seq<Action>, b: nat, c: int, v: int, n: nat) {
    && b < |run| && Run(Init(), run[..b]).Some? && LogSize(run, b) == n
    && run[b].Reply? && run[b].c == c && !run[b].fb.ack && run[b].fb.val == v
  }

  ghost predicate Made(run: seq<Action>, r: Req, n: nat) { exists a: nat :: Makes(run, a, r, n) }

  ghost predicate Spans(run: seq<Action>, a: nat, b: nat, k: Call) {
    a < b && Makes(run, a, k.r, k.begin) && Ends(run, b, k.r.client, k.val, k.end)
  }

  ghost predicate Finished(run: seq<Action>, k: Call) { exists a: nat, b: nat :: Spans(run, a, b, k) }

  lemma {:induction false} RunLast(s: Sys, run: seq<Action>)
    requires run != [] && Run(s, run).Some?
    ensures Run(s, run[..|run| - 1]).Some? && Step(Run(s, run[..|run| - 1]).value, run[|run| - 1]) == Run(s, run)
    decreases |run|
  {
    hide Step;
    if |run| > 1 {
      RunLast(Step(s, run[0]).value, run[1..]);
      assert run[..|run| - 1][1..] == run[1..][..|run| - 2] && run[..|run| - 1][0] == run[0];
    }
  }

  lemma Longer(run: seq<Action>, more: seq<Action>)
    requires run <= more
    ensures forall a: nat, r: Req, n: nat | Makes(run, a, r, n) :: Makes(more, a, r, n)
    ensures forall b: nat, c: int, v: int, n: nat | Ends(run, b, c, v, n) :: Ends(more, b, c, v, n)
  {
    assert forall a: nat | a < |run| :: run[..a] == more[..a] && run[a] == more[a];
  }

  // What a step does to the calls: it makes one, ends one or leaves them.
  lemma StepCalls(s: Sys, a: Action, s1: Sys)
    requires Step(s, a) == Some(s1)
    ensures forall c | c in s1.clients && s1.clients[c].pending.Some? ::
      || (c in s.clients && s1.clients[c].pending == s.clients[c].pending)
      || (var (r, n) := s1.clients[c].pending.value; a == Begin(r.client, r.opcode, r.time, r.key, r.value) && n == |s.server.log|)
    ensures s1.hist == s.hist
      || (&& a.Reply? && a.c in s.clients && s.clients[a.c].pending.Some? && !a.fb.ack
          && s1.hist == s.hist + [Call(s.clients[a.c].pending.value.0, a.fb.val, s.clients[a.c].pending.value.1, |s.server.log|)])
  {
    hide MainStep;
    hide ThreadStep;
    hide Receive;
  }

  lemma {:induction false} CallsTold(run: seq<Action>)
    requires Run(Init(), run).Some?
    ensures var s := Run(Init(), run).value;
      && (forall c | c in s.clients && s.clients[c].pending.Some? :: Made(run, s.clients[c].pending.value.0, s.clients[c].pending.value.1))
      && (forall k | 0 <= k < |s.hist| :: Finished(run, s.hist[k]))
    decreases |run|
  {
    hide Step;
    hide Run;
    if run == [] {
      NoCalls();
    } else {
      var before, a := run[..|run| - 1], run[|run| - 1];
      RunLast(Init(), run);
      CallsTold(before);
      Longer(before, run);
      var s, s1 := Run(Init(), before).value, Run(Init(), run).value;
      StepCalls(s, a, s1);
      PendingIds(before);
      forall c | c in s1.clients && s1.clients[c].pending.Some? ensures Made(run, s1.clients[c].pending.value.0, s1.clients[c].pending.value.1) {
        if c in s.clients && s1.clients[c].pending == s.clients[c].pending {
          var x: nat :| Makes(before, x, s.clients[c].pending.value.0, s.clients[c].pending.value.1);
          assert Makes(run, x, s.clients[c].pending.value.0, s.clients[c].pending.value.1);
        } else {
          assert Makes(run, |run| - 1, s1.clients[c].pending.value.0, s1.clients[c].pending.value.1);
        }
      }
      forall k | 0 <= k < |s1.hist| ensures Finished(run, s1.hist[k]) {
        if k < |s.hist| {
          var x: nat, y: nat :| Spans(before, x, y, s.hist[k]);
          assert Spans(run, x, y, s1.hist[k]);
        } else {
          var (r, n) := s.clients[a.c].pending.value;
          var x: nat :| Makes(before, x, r, n);
          assert Makes(run, x, r, n) && Ends(run, |run| - 1, r.client, a.fb.val, |s.server.log|);
          assert Spans(run, x, |run| - 1, s1.hist[k]);
        }
      }
    }
  }

  lemma NoCalls()
    ensures Run(Init(), []).Some? && Run(Init(), []).value.clients == map[] && Run(Init(), []).value.hist == []
  {
  }

  // A client's pending request is its own.
  lemma PendingIds(run: seq<Action>)
    requires Run(Init(), run).Some?
    ensures var s := Run(Init(), run).value;
      forall c | c in s.clients && s.clients[c].pending.Some? :: s.clients[c].pending.value.0.client == c
  {
    hide Run;
    InitInv();
    RunInv(Init(), run);
    var s := Run(Init(), run).value;
    assert forall c | c in s.clients :: ClientOk(s, c);
  }

  /** Every call that has returned: it was made by one action of the run and returned by a later one, and in
      between its request was executed, with the result that the executions before made it; that
      result is what it returned. */
  lemma CallTakesEffect(run: seq<Action>, k: nat)
    requires Run(Init(), run).Some? && k < |Run(Init(), run).value.hist|
    ensures var (log, call) := (Run(Init(), run).value.server.log, Run(Init(), run).value.hist[k]);
      exists a: nat, b: nat, i: nat ::
        && Spans(run, a, b, call) && LogSize(run, a) <= i < LogSize(run, b) <= |log|
        && log[i].r == call.r && Returns(log, i, call.val)
  {
    hide Run;
    hide Returns;
    CallsTold(run);
    CallReturns(run, k);
    var (log, call) := (Run(Init(), run).value.server.log, Run(Init(), run).value.hist[k]);
    var a: nat, b: nat :| Spans(run, a, b, call);
    var i: nat :| call.begin <= i < call.end <= |log| && log[i].r == call.r && Returns(log, i, call.val);
    assert LogSize(run, a) == call.begin && LogSize(run, b) == call.end;
  }

  lemma StepLogs(s: Sys, a: Action, s1: Sys)
    requires Step(s, a) == Some(s1)
    ensures |s.server.log| <= |s1.server.log|
  {
    hide Claim;
    hide Compare;
  }

  lemma {:induction false} LogGrows(run: seq<Action>, j: nat)
    requires Run(Init(), run).Some? && j <= |run|
    ensures Run(Init(), run[..j]).Some? && LogSize(run, j) <= |Run(Init(), run).value.server.log|
    decreases |run|
  {
    hide Step;
    hide Run;
    if j == |run| {
      assert run[..j] == run;
    } else {
      var before := run[..|run| - 1];
      RunLast(Init(), run);
      LogGrows(before, j);
      assert before[..j] == run[..j];
      StepLogs(Run(Init(), before).value, run[|run| - 1], Run(Init(), run).value);
    }
  }

  /** Of two calls, one of which returned before the other was made, the first was executed first. */
  lemma CallsInOrder(run: seq<Action>, k: nat, l: nat, b: nat, a: nat)
    requires Run(Init(), run).Some? && k < |Run(Init(), run).value.hist| && l < |Run(Init(), run).value.hist|
    requires var h := Run(Init(), run).value.hist; Ends(run, b, h[k].r.client, h[k].val, h[k].end) && b <= a && Makes(run, a, h[l].r, h[l].begin)
    ensures var s := Run(Init(), run).value;
      exists i, j ::
        && i < j
        && At(s.server.log, i, s.hist[k].r.client, s.hist[k].r.seqNum)
        && At(s.server.log, j, s.hist[l].r.client, s.hist[l].r.seqNum)
  {
    hide Run;
    assert run[..a][..b] == run[..b];
    LogGrows(run[..a], b);
    RealTimeOrder(run, k, l);
  }
}
