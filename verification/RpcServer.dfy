/** The key-value server of P8_Distributed_Systems (server.c, server_functions.c): the
    per-client table that makes retried requests safe, as functions on values and as the
    arrays the program updates in place. */
module RpcServer {
  const TABLESIZE: nat := 100
  const NUMKEYS: nat := 1024

  // opcode: 0 idle, 1 get, anything else put.
  datatype Req = Req(opcode: int, client: int, seqNum: int, time: int, key: int, value: int)
  datatype Feedback = Feedback(client: int, seqNum: int, ack: bool, val: int)
  datatype Entry = Entry(client: int, seqNum: int, done: bool, result: int)

  type Table = t: seq<Entry> | |t| == TABLESIZE witness seq(TABLESIZE, i => Entry(-1, -1, false, -1))
  type Store = s: seq<int> | |s| == NUMKEYS witness seq(NUMKEYS, i => 0)

  // The id that marks a free slot.
  const FREE: int := -1

  /** A request that can be told from a free slot. */
  predicate ReqOk(r: Req) { r.client != FREE }

  /** The range check of get and put lets key NUMKEYS through, to one past the array: what happens
      then is undefined. */
  predicate Defined(r: Req) { r.opcode == 0 || r.key != NUMKEYS }

  function EmptyTable(): Table { seq(TABLESIZE, i => Entry(FREE, -1, false, -1)) }

  function EmptyStore(): Store { seq(NUMKEYS, i => 0) }

  predicate KeyRefused(key: int) { key > NUMKEYS || key < 0 }

  function GetVal(s: Store, key: int): int
    requires key != NUMKEYS
  {
    if KeyRefused(key) then -1 else s[key]
  }

  /** get or put on the store: the new store and the result. */
  function ExecStore(s: Store, r: Req): Store
    requires Defined(r)
  {
    if r.opcode == 0 || r.opcode == 1 || KeyRefused(r.key) then s else s[r.key := r.value]
  }

  function ExecVal(s: Store, r: Req): int
    requires Defined(r)
  {
    if r.opcode == 1 then GetVal(s, r.key) else if r.opcode == 0 || KeyRefused(r.key) then -1 else 0
  }

  /** The scan of serve: the first slot from i on that is empty or belongs to c. */
  function Scan(t: Table, c: int, i: nat): (k: nat)
    requires i <= TABLESIZE
    ensures i <= k <= TABLESIZE
    ensures k < TABLESIZE ==> t[k].client == FREE || t[k].client == c
    ensures forall j | i <= j < k :: t[j].client != FREE && t[j].client != c
    decreases TABLESIZE - i
  {
    if i == TABLESIZE || t[i].client == FREE || t[i].client == c then i else Scan(t, c, i + 1)
  }

  function Slot(t: Table, c: int): nat { Scan(t, c, 0) }

  // The table after serve has found or made the client's slot.
  function Enter(t: Table, c: int): Table
    requires Slot(t, c) < TABLESIZE
  {
    t[Slot(t, c) := t[Slot(t, c)].(client := c)]
  }

  datatype Kind = Old | Same | New

  function Compare(t: Table, r: Req): Kind
    requires Slot(t, r.client) < TABLESIZE
  {
    var stored := t[Slot(t, r.client)].seqNum;
    if stored > r.seqNum then Old else if stored == r.seqNum then Same else New
  }

  /** Table lookup plus claim (the critical section up to the execution). */
  function Claim(t: Table, r: Req): Table
    requires Slot(t, r.client) < TABLESIZE
  {
    var i := Slot(t, r.client);
    if Compare(t, r).New? then Enter(t, r.client)[i := Entry(r.client, r.seqNum, false, t[i].result)]
    else Enter(t, r.client)
  }

  /** The answer to a repeated request, from what slot i holds now. */
  function Answer(t: Table, i: nat, r: Req): Feedback
    requires i < TABLESIZE
  {
    if t[i].done then Feedback(r.client, r.seqNum, false, t[i].result) else Feedback(r.client, r.seqNum, true, -1)
  }

  // ---------------------------------------------------------------- the table's shape

  /** Occupied slots form a prefix and belong to distinct clients. */
  ghost predicate TableOk(t: Table) {
    && (forall i, j | 0 <= i < j < TABLESIZE && t[j].client != FREE :: t[i].client != FREE)
    && (forall i, j | 0 <= i < j < TABLESIZE && t[i].client != FREE :: t[i].client != t[j].client)
    && (forall i | 0 <= i < TABLESIZE && t[i].client == FREE :: t[i].seqNum == -1 && !t[i].done)
    && (forall i | 0 <= i < TABLESIZE :: t[i].seqNum >= -1)
  }

  /** The early break of the scan never misses a client that has a slot. */
  lemma SlotFindsClient(t: Table, c: int, i: nat)
    requires TableOk(t) && i < TABLESIZE && t[i].client == c && c != FREE
    ensures Slot(t, c) == i
  {
    var k := Slot(t, c);
    assert k <= i;
  }

  lemma ClaimKeepsTable(t: Table, r: Req)
    requires TableOk(t) && ReqOk(r) && Slot(t, r.client) < TABLESIZE
    ensures TableOk(Claim(t, r)) && Claim(t, r)[Slot(t, r.client)].client == r.client
    ensures Slot(Claim(t, r), r.client) == Slot(t, r.client)
    ensures forall i | 0 <= i < TABLESIZE && i != Slot(t, r.client) :: Claim(t, r)[i] == t[i] && t[i].client != r.client
  {
    var k := Slot(t, r.client);
    var t1 := Claim(t, r);
    forall i | 0 <= i < TABLESIZE && i != k ensures t[i].client != r.client {
      if i > k && t[k].client == FREE && t[i].client != FREE {
        assert false;
      }
    }
    SlotFindsClient(t1, r.client, k);
  }

  /** A new client finds a free slot as long as fewer than 100 clients have one. */
  lemma {:induction false} SlotExists(t: Table, c: int, ids: set<int>)
    requires TableOk(t) && c != FREE && c in ids && |ids| <= TABLESIZE
    requires forall i | 0 <= i < TABLESIZE && t[i].client != FREE :: t[i].client in ids
    ensures Slot(t, c) < TABLESIZE
  {
    if Slot(t, c) == TABLESIZE {
      var used := set i | 0 <= i < TABLESIZE :: t[i].client;
      DistinctSize(t, TABLESIZE);
      assert used == ClientsBelow(t, TABLESIZE);
      assert used <= ids - {c};
      SubsetSize(used, ids - {c});
    }
  }

  ghost function ClientsBelow(t: Table, n: nat): set<int>
    requires n <= TABLESIZE
  {
    set i | 0 <= i < n :: t[i].client
  }

  lemma {:induction false} DistinctSize(t: Table, n: nat)
    requires TableOk(t) && n <= TABLESIZE && forall i | 0 <= i < TABLESIZE :: t[i].client != FREE
    ensures |ClientsBelow(t, n)| == n
  {
    if n > 0 {
      DistinctSize(t, n - 1);
      assert ClientsBelow(t, n) == ClientsBelow(t, n - 1) + {t[n - 1].client};
    }
  }

  lemma {:induction false} SubsetSize<T>(a: set<T>, b: set<T>)
    requires a <= b
    ensures |a| <= |b|
  {
    if a != {} {
      var x :| x in a;
      SubsetSize(a - {x}, b - {x});
    }
  }
}
