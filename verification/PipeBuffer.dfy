/** The ring buffer of P5_XV6_CoW_Fork/kernel/pipe.c: what the lock-held loops of pipewrite and
    piperead do, and that the pipe is a FIFO even when its 32-bit counters wrap around. */
module PipeBuffer {
  const PIPESIZE: nat := 512
  const UINT: nat := 0x1_0000_0000

  type Uint = x: int | 0 <= x < UINT

  function Add(a: Uint, b: Uint): Uint { (a + b) % UINT }

  datatype Pipe = Pipe(data: seq<char>, nread: Uint, nwrite: Uint, readopen: bool, writeopen: bool)

  predicate Wf(p: Pipe) { |p.data| == PIPESIZE }

  predicate Empty(p: Pipe) { p.nread == p.nwrite }

  predicate Full(p: Pipe) { p.nwrite == Add(p.nread, PIPESIZE) }

  /** piperead's copy loop: the pipe after it and the bytes copied. */
  function ReadLoop(p: Pipe, n: nat): (r: (Pipe, seq<char>))
    requires Wf(p)
    ensures Wf(r.0) && |r.1| <= n
    decreases n
  {
    if n == 0 || Empty(p) then (p, [])
    else
      var (p1, rest) := ReadLoop(p.(nread := Add(p.nread, 1)), n - 1);
      (p1, [p.data[p.nread % PIPESIZE]] + rest)
  }

  /** pipewrite's loop up to the end of the bytes or a full pipe: the pipe and the number stored. */
  function WriteLoop(p: Pipe, bytes: seq<char>): (r: (Pipe, nat))
    requires Wf(p)
    ensures Wf(r.0) && r.1 <= |bytes|
    decreases |bytes|
  {
    if bytes == [] || Full(p) then (p, 0)
    else
      var (p1, k) := WriteLoop(p.(data := p.data[p.nwrite % PIPESIZE := bytes[0]], nwrite := Add(p.nwrite, 1)), bytes[1..]);
      (p1, k + 1)
  }

  /** The pipe against its history: sent was accepted and recv returned so far; the bytes in
      between are in the buffer, and the counters count modulo 2^32. */
  ghost predicate Holds(p: Pipe, sent: seq<char>, recv: seq<char>) {
    && Wf(p) && recv <= sent && |sent| - |recv| <= PIPESIZE
    && p.nread == |recv| % UINT && p.nwrite == |sent| % UINT
    && forall k | |recv| <= k < |sent| :: p.data[k % PIPESIZE] == sent[k]
  }

  lemma Counters(a: nat, b: nat)
    requires a <= b <= a + PIPESIZE
    ensures (a % UINT == b % UINT) <==> a == b
    ensures (b % UINT == Add(a % UINT, PIPESIZE)) <==> b == a + PIPESIZE
    ensures Add(a % UINT, 1) == (a + 1) % UINT
    ensures a % UINT % PIPESIZE == a % PIPESIZE
  {
  }

  /** The tests of the loops mean what they say, wrapped or not. */
  lemma TestsMean(p: Pipe, sent: seq<char>, recv: seq<char>)
    requires Holds(p, sent, recv)
    ensures Empty(p) <==> sent == recv
    ensures Full(p) <==> |sent| == |recv| + PIPESIZE
  {
    Counters(|recv|, |sent|);
    if |sent| == |recv| { assert recv == sent[..|recv|]; }
  }

  function Min(a: int, b: int): int { if a <= b then a else b }

  lemma {:induction false} ReadLoopTakes(p: Pipe, n: nat, sent: seq<char>, recv: seq<char>)
    requires Holds(p, sent, recv)
    ensures var (p1, got) := ReadLoop(p, n);
      && |got| == Min(n, |sent| - |recv|) && Holds(p1, sent, recv + got)
      && p1 == p.(nread := p1.nread)
    decreases n
  {
    TestsMean(p, sent, recv);
    if n > 0 && !Empty(p) {
      Counters(|recv|, |recv|);
      var b := p.data[p.nread % PIPESIZE];
      assert b == sent[|recv|];
      ReadLoopTakes(p.(nread := Add(p.nread, 1)), n - 1, sent, recv + [b]);
      var rest := ReadLoop(p.(nread := Add(p.nread, 1)), n - 1).1;
      assert recv + [b] + rest == recv + ([b] + rest);
    } else {
      assert recv + [] == recv;
    }
  }

  lemma {:induction false} WriteLoopPuts(p: Pipe, bytes: seq<char>, sent: seq<char>, recv: seq<char>)
    requires Holds(p, sent, recv)
    ensures var (p1, k) := WriteLoop(p, bytes);
      && k == Min(|bytes|, PIPESIZE - (|sent| - |recv|)) && Holds(p1, sent + bytes[..k], recv)
      && p1 == p.(data := p1.data, nwrite := p1.nwrite)
    decreases |bytes|
  {
    TestsMean(p, sent, recv);
    if bytes != [] && !Full(p) {
      Counters(|sent|, |sent|);
      var p1 := p.(data := p.data[p.nwrite % PIPESIZE := bytes[0]], nwrite := Add(p.nwrite, 1));
      SlotIsFree(|recv|, |sent|);
      assert Holds(p1, sent + [bytes[0]], recv);
      WriteLoopPuts(p1, bytes[1..], sent + [bytes[0]], recv);
      var k := WriteLoop(p1, bytes[1..]).1;
      assert sent + [bytes[0]] + bytes[1..][..k] == sent + bytes[..k + 1];
    } else {
      assert sent + bytes[..0] == sent;
    }
  }

  // The slot of the next byte holds none that is still unread.
  lemma SlotIsFree(a: nat, b: nat)
    requires a <= b < a + PIPESIZE
    ensures forall k | a <= k < b :: k % PIPESIZE != b % PIPESIZE
  {
  }

  class PipeObj {
    const data: array<char>
    var nread: Uint
    var nwrite: Uint
    var readopen: bool
    var writeopen: bool

    ghost predicate Valid()
      reads this
    {
      data.Length == PIPESIZE
    }

    ghost function View(): (p: Pipe)
      reads this, data
      requires Valid()
      ensures Wf(p)
    {
      Pipe(data[..], nread, nwrite, readopen, writeopen)
    }

    /** pipealloc. */
    constructor ()
      ensures Valid() && fresh(data) && Holds(View(), [], []) && readopen && writeopen
    {
      data := new char[PIPESIZE];
      nread, nwrite, readopen, writeopen := 0, 0, true, true;
    }

    /** The loop of pipewrite from byte i on, until the bytes end or the pipe is full. */
    method Write(addr: seq<char>, start: nat) returns (i: nat)
      requires Valid() && start <= |addr|
      modifies this`nwrite, data
      ensures Valid() && start <= i <= |addr| && (i == |addr| || Full(View()))
      ensures (View(), i - start) == WriteLoop(old(View()), addr[start..])
    {
      i := start;
      while i < |addr| && nwrite != Add(nread, PIPESIZE)
        invariant start <= i <= |addr| && Valid()
        invariant WriteLoop(old(View()), addr[start..]) == (var (p, k) := WriteLoop(View(), addr[i..]); (p, k + (i - start)))
      {
        ghost var p := View();
        data[nwrite % PIPESIZE] := addr[i];
        nwrite := Add(nwrite, 1);
        assert View() == p.(data := p.data[p.nwrite % PIPESIZE := addr[i..][0]], nwrite := Add(p.nwrite, 1));
        assert addr[i..][1..] == addr[i + 1..];
        i := i + 1;
      }
    }

    /** The copy loop of piperead. */
    method Read(n: nat) returns (got: seq<char>)
      requires Valid()
      modifies this`nread
      ensures Valid() && (View(), got) == ReadLoop(old(View()), n)
    {
      got := [];
      var i := 0;
      ghost var (end, all) := ReadLoop(View(), n);
      assert [] + all == all;
      while i < n && nread != nwrite
        invariant 0 <= i <= n && Valid() && |got| == i
        invariant ReadLoop(View(), n - i).0 == end && got + ReadLoop(View(), n - i).1 == all
      {
        ghost var p, sofar := View(), got;
        got := got + [data[nread % PIPESIZE]];
        nread := Add(nread, 1);
        i := i + 1;
        assert View() == p.(nread := Add(p.nread, 1));
        assert sofar + ([p.data[p.nread % PIPESIZE]] + ReadLoop(View(), n - i).1) == got + ReadLoop(View(), n - i).1;
      }
      assert got + [] == got;
    }
  }
}
