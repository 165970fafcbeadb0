/** itrunc of P5_XV6_CoW_Fork/kernel/fs.c: it frees exactly the blocks of the inode, each once,
    and leaves every other file alone. */
module FsTrunc {
  import opened Wrappers
  import opened FsBlocks

  function Iupdate(fs: Fs, i: nat): Fs
    requires i < |fs.inodes| && i < |fs.disk|
  {
    fs.(disk := fs.disk[i := fs.inodes[i]])
  }

  // The loop over the direct blocks.
  function FreeDirect(fs: Fs, i: nat, k: nat): (r: Option<Fs>)
    requires i < |fs.inodes| && |fs.inodes[i].addrs| == NDIRECT + 1 && k <= NDIRECT
    ensures r.Some? ==> |r.value.inodes| == |fs.inodes| && |r.value.inodes[i].addrs| == NDIRECT + 1 && |r.value.disk| == |fs.disk|
    decreases NDIRECT - k
  {
    if k == NDIRECT then Some(fs)
    else if fs.inodes[i].addrs[k] == 0 then FreeDirect(fs, i, k + 1)
    else
      match Bfree(fs, fs.inodes[i].addrs[k])
      case None => None
      case Some(fs1) => FreeDirect(SetAddr(fs1, i, k, 0), i, k + 1)
  }

  // The loop over the entries of the indirect block, whose contents were read before it.
  function FreeEntries(fs: Fs, a: Block, j: nat): (r: Option<Fs>)
    requires j <= NINDIRECT
    ensures r.Some? ==> r.value.inodes == fs.inodes && r.value.disk == fs.disk
    decreases NINDIRECT - j
  {
    if j == NINDIRECT then Some(fs)
    else if Word(a, j) == 0 then FreeEntries(fs, a, j + 1)
    else
      match Bfree(fs, Word(a, j))
      case None => None
      case Some(fs1) => FreeEntries(fs1, a, j + 1)
  }

  function FreeIndirect(fs: Fs, i: nat): (r: Option<Fs>)
    requires i < |fs.inodes| && |fs.inodes[i].addrs| == NDIRECT + 1
    ensures r.Some? ==> |r.value.inodes| == |fs.inodes| && |r.value.disk| == |fs.disk|
  {
    var b := fs.inodes[i].addrs[NDIRECT];
    if b == 0 then Some(fs)
    else if b >= |fs.blocks| then None
    else
      match FreeEntries(fs, fs.blocks[b], 0)
      case None => None
      case Some(fs1) =>
        match Bfree(fs1, b)
        case None => None
        case Some(fs2) => Some(SetAddr(fs2, i, NDIRECT, 0))
  }

  /** itrunc; None is a panic. */
  function Itrunc(fs: Fs, i: nat): Option<Fs>
    requires Shape(fs) && i < |fs.inodes|
  {
    match FreeDirect(fs, i, 0)
    case None => None
    case Some(fs1) =>
      match FreeIndirect(fs1, i)
      case None => None
      case Some(fs2) => Some(Iupdate(fs2.(inodes := fs2.inodes[i := fs2.inodes[i].(size := 0)]), i))
  }

  // ---------------------------------------------------------------- the effect so far

  /** Block b is held by one of the pointers of inode i in ks. */
  ghost predicate HeldIn(fs: Fs, i: nat, ks: set<nat>, b: nat)
    requires Shape(fs) && i < |fs.inodes|
  {
    b != 0 && exists k: nat :: k in ks && k < NREFS && Ref(fs, i, k) == b
  }

  /** From fs to fs1 the pointers ks of inode i were dropped and their blocks freed and zeroed;
      the entries of the indirect block stay behind in it until it goes itself. */
  ghost predicate Dropped(fs: Fs, fs1: Fs, i: nat, ks: set<nat>) {
    && Shape(fs) && Shape(fs1) && i < |fs.inodes|
    && |fs1.inodes| == |fs.inodes| && |fs1.blocks| == |fs.blocks| && fs1.dstart == fs.dstart && fs1.disk == fs.disk
    && (forall j: nat | j < |fs.inodes| && j != i :: fs1.inodes[j] == fs.inodes[j])
    && fs1.inodes[i].size == fs.inodes[i].size
    && (forall k: nat | k <= NDIRECT :: fs1.inodes[i].addrs[k] == if k in ks then 0 else fs.inodes[i].addrs[k])
    && (forall b: nat | b < |fs.blocks| :: fs1.used[b] == (fs.used[b] && !HeldIn(fs, i, ks, b)))
    && (forall b: nat | b < |fs.blocks| :: fs1.blocks[b] == if HeldIn(fs, i, ks, b) then Zero() else fs.blocks[b])
  }

  // An empty pointer drops for free.
  lemma DropNone(fs: Fs, fs1: Fs, i: nat, ks: set<nat>, k: nat)
    requires Inv(fs) && Dropped(fs, fs1, i, ks) && IsPointer(fs, i, k) && Ref(fs, i, k) == 0
    ensures Dropped(fs, fs1, i, ks + {k})
  {
    hide RefsOk;
    hide Distinct;
    hide BitmapOk;
    hide Zero;
    forall b: nat ensures HeldIn(fs, i, ks + {k}, b) <==> HeldIn(fs, i, ks, b) {
      if HeldIn(fs, i, ks, b) {
        var l: nat :| l in ks && l < NREFS && Ref(fs, i, l) == b;
        assert l in ks + {k};
      }
    }
  }

  // Freeing the block of a pointer that has not been dropped yet cannot panic.
  lemma DropOne(fs: Fs, fs1: Fs, i: nat, ks: set<nat>, k: nat)
    requires Inv(fs) && Dropped(fs, fs1, i, ks) && IsPointer(fs, i, k) && Ref(fs, i, k) != 0 && k !in ks
    ensures Bfree(fs1, Ref(fs, i, k)).Some?
    ensures var fs2 := Bfree(fs1, Ref(fs, i, k)).value;
      Dropped(fs, if k <= NDIRECT then SetAddr(fs2, i, k, 0) else fs2, i, ks + {k})
  {
    hide RefsOk;
    hide Distinct;
    hide BitmapOk;
    hide Zero;
    hide Ref;
    var b := Ref(fs, i, k);
    RefAt(fs, i, k);
    if HeldIn(fs, i, ks, b) {
      var l: nat :| l in ks && l < NREFS && Ref(fs, i, l) == b;
      DistinctAt(fs, i, k, i, l);
    }
    forall c: nat ensures HeldIn(fs, i, ks + {k}, c) <==> HeldIn(fs, i, ks, c) || c == b {
      if HeldIn(fs, i, ks, c) {
        var l: nat :| l in ks && l < NREFS && Ref(fs, i, l) == c;
        assert l in ks + {k};
      }
      if c == b { assert k in ks + {k}; }
    }
  }

  ghost function Below(n: nat): (ks: set<nat>)
    ensures forall k: nat :: k in ks <==> k < n
  {
    if n == 0 then {} else Below(n - 1) + {n - 1}
  }

  ghost function Entries(j: nat): (ks: set<nat>)
    ensures forall k: nat :: k in ks <==> NDIRECT < k <= NDIRECT + j
  {
    if j == 0 then {} else Entries(j - 1) + {NDIRECT + j}
  }

  lemma {:induction false} DirectDropped(fs: Fs, fs1: Fs, i: nat, k: nat)
    requires Inv(fs) && k <= NDIRECT && Dropped(fs, fs1, i, Below(k))
    ensures FreeDirect(fs1, i, k).Some? && Dropped(fs, FreeDirect(fs1, i, k).value, i, Below(NDIRECT))
    decreases NDIRECT - k
  {
    hide Below;
    hide Entries;
    hide Inv;
    hide Dropped;
    hide SetAddr;
    DroppedAddr(fs, fs1, i, Below(k), k);
    if k < NDIRECT {
      assert Below(k + 1) == Below(k) + {k};
      if Ref(fs, i, k) == 0 {
        DropNone(fs, fs1, i, Below(k), k);
        DirectDropped(fs, fs1, i, k + 1);
      } else {
        DropOne(fs, fs1, i, Below(k), k);
        DirectDropped(fs, SetAddr(Bfree(fs1, Ref(fs, i, k)).value, i, k, 0), i, k + 1);
      }
    }
  }

  lemma DroppedAddr(fs: Fs, fs1: Fs, i: nat, ks: set<nat>, k: nat)
    requires Inv(fs) && Dropped(fs, fs1, i, ks)
    ensures Shape(fs) && Shape(fs1) && i < |fs.inodes| == |fs1.inodes|
    ensures k <= NDIRECT && k !in ks ==> fs1.inodes[i].addrs[k] == Ref(fs, i, k) && IsPointer(fs, i, k)
  {
  }

  lemma {:induction false} EntriesDropped(fs: Fs, fs1: Fs, i: nat, a: Block, j: nat)
    requires Inv(fs) && j <= NINDIRECT && i < |fs.inodes| && Dropped(fs, fs1, i, Below(NDIRECT) + Entries(j))
    requires forall l: nat | l < NINDIRECT :: Word(a, l) == Ref(fs, i, NDIRECT + 1 + l)
    ensures FreeEntries(fs1, a, j).Some?
    ensures Dropped(fs, FreeEntries(fs1, a, j).value, i, Below(NDIRECT) + Entries(NINDIRECT))
    decreases NINDIRECT - j
  {
    hide Below;
    hide Entries;
    hide Inv;
    hide Dropped;
    hide Bfree;
    hide Word;
    hide Ref;
    DroppedAddr(fs, fs1, i, Below(NDIRECT) + Entries(j), NDIRECT + 1 + j);
    if j < NINDIRECT {
      var k := NDIRECT + 1 + j;
      assert Entries(j + 1) == Entries(j) + {k};
      assert Below(NDIRECT) + Entries(j + 1) == Below(NDIRECT) + Entries(j) + {k};
      if Word(a, j) == 0 {
        DropNone(fs, fs1, i, Below(NDIRECT) + Entries(j), k);
        EntriesDropped(fs, fs1, i, a, j + 1);
      } else {
        DropOne(fs, fs1, i, Below(NDIRECT) + Entries(j), k);
        EntriesDropped(fs, Bfree(fs1, Word(a, j)).value, i, a, j + 1);
      }
    }
  }

  /** The whole of itrunc, relative to fs: every block the inode held is free and all zeros, and
      nothing else changed but the inode, now empty in memory and on disk. */
  ghost predicate Truncated(fs: Fs, fs1: Fs, i: nat) {
    && Shape(fs) && Shape(fs1) && i < |fs.inodes|
    && |fs1.inodes| == |fs.inodes| && |fs1.blocks| == |fs.blocks| && fs1.dstart == fs.dstart
    && (forall j: nat | j < |fs.inodes| && j != i :: fs1.inodes[j] == fs.inodes[j])
    && fs1.inodes[i].size == 0 && (forall k: nat | k <= NDIRECT :: fs1.inodes[i].addrs[k] == 0)
    && fs1.disk == fs.disk[i := fs1.inodes[i]]
    && (forall b: nat | b < |fs.blocks| :: fs1.used[b] == (fs.used[b] && !HeldBy(fs, i, b)))
    && (forall b: nat | b < |fs.blocks| :: fs1.blocks[b] == if HeldBy(fs, i, b) then Zero() else fs.blocks[b])
  }

  ghost predicate HeldBy(fs: Fs, i: nat, b: nat)
    requires Shape(fs) && i < |fs.inodes|
  {
    b != 0 && exists k: nat :: k < NREFS && Ref(fs, i, k) == b
  }

  // Every block of the inode is held by one of ks.
  ghost predicate AllIn(fs: Fs, i: nat, ks: set<nat>)
    requires Shape(fs) && i < |fs.inodes|
  {
    forall k: nat | k < NREFS && k !in ks :: Ref(fs, i, k) == 0
  }

  lemma HeldInAll(fs: Fs, i: nat, ks: set<nat>, b: nat)
    requires Shape(fs) && i < |fs.inodes| && AllIn(fs, i, ks)
    ensures HeldIn(fs, i, ks, b) <==> HeldBy(fs, i, b)
  {
    hide Ref;
    if HeldBy(fs, i, b) {
      var k: nat :| k < NREFS && Ref(fs, i, k) == b;
      assert k in ks;
    }
    if HeldIn(fs, i, ks, b) {
      var k: nat :| k in ks && k < NREFS && Ref(fs, i, k) == b;
      assert k < NREFS && Ref(fs, i, k) == b;
    }
  }

  lemma EntriesAsRead(fs: Fs, fs1: Fs, i: nat)
    requires Inv(fs) && Dropped(fs, fs1, i, Below(NDIRECT)) && fs.inodes[i].addrs[NDIRECT] != 0
    ensures var b := fs1.inodes[i].addrs[NDIRECT];
      && b == Ref(fs, i, NDIRECT) && b < |fs1.blocks|
      && forall l: nat | l < NINDIRECT :: Word(fs1.blocks[b], l) == Ref(fs, i, NDIRECT + 1 + l)
  {
    hide Distinct;
    hide BitmapOk;
    hide Word;
    hide Zero;
    RefAt(fs, i, NDIRECT);
    var b := Ref(fs, i, NDIRECT);
    if HeldIn(fs, i, Below(NDIRECT), b) {
      var k: nat :| k in Below(NDIRECT) && k < NREFS && Ref(fs, i, k) == b;
      DistinctAt(fs, i, k, i, NDIRECT);
    }
  }

  lemma IndirectDropped(fs: Fs, fs1: Fs, i: nat)
    requires Inv(fs) && Dropped(fs, fs1, i, Below(NDIRECT)) && fs.inodes[i].addrs[NDIRECT] != 0
    ensures FreeIndirect(fs1, i).Some?
    ensures Dropped(fs, FreeIndirect(fs1, i).value, i, Below(NDIRECT) + Entries(NINDIRECT) + {NDIRECT})
  {
    hide Below;
    hide Entries;
    hide Inv;
    hide Word;
    hide FreeEntries;
    hide HeldIn;
    hide Zero;
    EntriesAsRead(fs, fs1, i);
    var b := fs1.inodes[i].addrs[NDIRECT];
    assert Below(NDIRECT) + Entries(0) == Below(NDIRECT);
    EntriesDropped(fs, fs1, i, fs1.blocks[b], 0);
    DropOne(fs, FreeEntries(fs1, fs1.blocks[b], 0).value, i, Below(NDIRECT) + Entries(NINDIRECT), NDIRECT);
  }

  lemma IndirectOk(fs: Fs, fs1: Fs, i: nat)
    requires Inv(fs) && Dropped(fs, fs1, i, Below(NDIRECT))
    ensures FreeIndirect(fs1, i).Some?
    ensures exists ks :: Dropped(fs, FreeIndirect(fs1, i).value, i, ks) && AllIn(fs, i, ks)
  {
    hide Below;
    hide Entries;
    hide Inv;
    hide Word;
    hide FreeEntries;
    hide HeldIn;
    hide Zero;
    if fs.inodes[i].addrs[NDIRECT] != 0 { IndirectDropped(fs, fs1, i); }
  }

  lemma TruncatedAfter(fs: Fs, fs2: Fs, i: nat, ks: set<nat>)
    requires Dropped(fs, fs2, i, ks) && AllIn(fs, i, ks)
    ensures Truncated(fs, Iupdate(fs2.(inodes := fs2.inodes[i := fs2.inodes[i].(size := 0)]), i), i)
  {
    hide HeldIn;
    hide HeldBy;
    hide Zero;
    hide Word;
    forall b: nat ensures HeldIn(fs, i, ks, b) <==> HeldBy(fs, i, b) { HeldInAll(fs, i, ks, b); }
  }

  /** itrunc does not panic, and frees exactly the inode's blocks, each once. */
  lemma ItruncFreesExactly(fs: Fs, i: nat)
    requires Inv(fs) && i < |fs.inodes|
    ensures Itrunc(fs, i).Some? && Truncated(fs, Itrunc(fs, i).value, i)
  {
    hide RefsOk;
    hide Distinct;
    hide BitmapOk;
    hide FreeDirect;
    hide FreeIndirect;
    hide Dropped;
    hide Truncated;
    NothingDropped(fs, i);
    DirectDropped(fs, fs, i, 0);
    var fs1 := FreeDirect(fs, i, 0).value;
    IndirectOk(fs, fs1, i);
    var ks :| Dropped(fs, FreeIndirect(fs1, i).value, i, ks) && AllIn(fs, i, ks);
    TruncatedAfter(fs, FreeIndirect(fs1, i).value, i, ks);
  }

  lemma NothingDropped(fs: Fs, i: nat)
    requires Inv(fs) && i < |fs.inodes|
    ensures Dropped(fs, fs, i, Below(0))
  {
  }

  // ---------------------------------------------------------------- what that keeps

  lemma TruncRefs(fs: Fs, fs1: Fs, i: nat)
    requires Inv(fs) && Truncated(fs, fs1, i)
    ensures forall k: nat | k < NREFS :: Ref(fs1, i, k) == 0
    ensures forall j: nat, k: nat | IsPointer(fs, j, k) && j != i :: Ref(fs1, j, k) == Ref(fs, j, k)
  {
    hide BitmapOk;
    hide Zero;
    forall j: nat, k: nat | IsPointer(fs, j, k) && j != i ensures Ref(fs1, j, k) == Ref(fs, j, k) {
      RefAt(fs, j, NDIRECT);
      if Ref(fs, j, NDIRECT) != 0 && HeldBy(fs, i, Ref(fs, j, NDIRECT)) {
        var l: nat :| l < NREFS && Ref(fs, i, l) == Ref(fs, j, NDIRECT);
        DistinctAt(fs, i, l, j, NDIRECT);
      }
    }
  }

  lemma TruncInv(fs: Fs, fs1: Fs, i: nat)
    requires Inv(fs) && Truncated(fs, fs1, i)
    ensures Inv(fs1)
  {
    hide Ref;
    hide Zero;
    TruncRefs(fs, fs1, i);
    forall j: nat, k: nat | IsPointer(fs1, j, k) ensures RefOk(fs1, j, k) {
      RefAt(fs, j, k);
      if j != i { NotOthers(fs, i, j, k); }
    }
    forall b: nat | fs1.dstart <= b < |fs1.blocks| && fs1.used[b] ensures Held(fs1, b) {
      assert Held(fs, b);
      var j: nat, k: nat :| IsPointer(fs, j, k) && Ref(fs, j, k) == b;
      assert IsPointer(fs1, j, k);
    }
    forall b: nat | b < fs1.dstart ensures fs1.used[b] {
      if HeldBy(fs, i, b) {
        var k: nat :| k < NREFS && Ref(fs, i, k) == b;
        assert IsPointer(fs, i, k);
        RefAt(fs, i, k);
      }
    }
  }

  // A block of another file is not this one's.
  lemma NotOthers(fs: Fs, i: nat, j: nat, k: nat)
    requires Inv(fs) && i < |fs.inodes| && IsPointer(fs, j, k) && j != i
    ensures Ref(fs, j, k) != 0 ==> !HeldBy(fs, i, Ref(fs, j, k))
  {
    hide Ref;
    hide BitmapOk;
    forall l: nat | l < NREFS ensures Ref(fs, j, k) != 0 ==> Ref(fs, i, l) != Ref(fs, j, k) {
      assert IsPointer(fs, i, l);
    }
  }

  /** itrunc keeps the invariant, empties the file, and leaves every other file as it reads. */
  lemma ItruncOk(fs: Fs, i: nat, j: nat, o: nat)
    requires Inv(fs) && i < |fs.inodes| && j < |fs.inodes| && o < MAXFILE * BSIZE
    ensures Itrunc(fs, i).Some?
    ensures var fs1 := Itrunc(fs, i).value;
      && Inv(fs1) && |fs1.inodes| == |fs.inodes| && fs1.inodes[i].size == 0 && fs1.disk[i] == fs1.inodes[i]
      && (j != i ==> fs1.inodes[j] == fs.inodes[j] && fs1.disk[j] == fs.disk[j])
      && FileByte(fs1, j, o) == if j == i then 0 else FileByte(fs, j, o)
  {
    hide Itrunc;
    hide Ref;
    hide Zero;
    hide Distinct;
    hide RefsOk;
    hide BitmapOk;
    ItruncFreesExactly(fs, i);
    var fs1 := Itrunc(fs, i).value;
    TruncInv(fs, fs1, i);
    TruncRefs(fs, fs1, i);
    var k := Pointer(o / BSIZE);
    assert IsPointer(fs, j, k);
    RefAt(fs, j, k);
    if j != i { NotOthers(fs, i, j, k); }
  }
}
