/** How much room the operations of P5_XV6_CoW_Fork/kernel/fs.c need: bmap and writei succeed exactly
    while enough blocks are free. */
module FsSpace {
  import opened Wrappers
  import opened FsBlocks
  import opened FsTrunc
  import opened FsFiles

  /** The blocks of the disk that are free. */
  ghost function Spare(fs: Fs): set<nat>
    requires Shape(fs)
  {
    set b: nat | b < |fs.blocks| && !fs.used[b]
  }

  predicate NoTable(fs: Fs, i: nat)
    requires i < |fs.inodes| && |fs.inodes[i].addrs| == NDIRECT + 1
  {
    fs.inodes[i].addrs[NDIRECT] == 0
  }

  /** What the bn-th block of file i takes: nothing if it is there, otherwise one block, and one more
      for the indirect block if that is missing. */
  ghost function Needed(fs: Fs, i: nat, bn: nat): nat
    requires Shape(fs) && i < |fs.inodes| && bn < MAXFILE
  {
    if Has(fs, i, bn) then 0 else if bn >= NDIRECT && NoTable(fs, i) then 2 else 1
  }

  // From fs to fs1 n blocks were given away.
  ghost predicate Spent(fs: Fs, fs1: Fs, n: nat) {
    Shape(fs) && Shape(fs1) && |Spare(fs1)| == |Spare(fs)| - n
  }

  lemma TakeOne(fs: Fs, fs1: Fs, b: nat)
    requires Shape(fs) && Shape(fs1) && |fs1.blocks| == |fs.blocks| && b < |fs.blocks| && !fs.used[b] && fs1.used == fs.used[b := true]
    ensures Spent(fs, fs1, 1)
  {
    assert Spare(fs1) == Spare(fs) - {b} && b in Spare(fs);
  }

  lemma SpareIff(fs: Fs)
    requires Shape(fs)
    ensures |Spare(fs)| > 0 <==> exists b :: 0 <= b < |fs.blocks| && !fs.used[b]
  {
    if b: nat :| b < |fs.blocks| && !fs.used[b] { assert b in Spare(fs); }
  }

  lemma MapAddrSpace(fs: Fs, i: nat, k: nat)
    requires Inv(fs) && i < |fs.inodes| && k <= NDIRECT
    ensures MapAddr(fs, i, k).Some? <==> |Spare(fs)| >= (if fs.inodes[i].addrs[k] == 0 then 1 else 0)
    ensures MapAddr(fs, i, k).Some? ==> Spent(fs, MapAddr(fs, i, k).value.0, if fs.inodes[i].addrs[k] == 0 then 1 else 0)
  {
    hide RefsOk;
    hide Distinct;
    hide BitmapOk;
    hide Balloc;
    hide Spare;
    BallocExact(fs);
    SpareIff(fs);
    if fs.inodes[i].addrs[k] == 0 && MapAddr(fs, i, k).Some? {
      var (fs1, b) := MapAddr(fs, i, k).value;
      TakeOne(fs, fs1, b);
    }
  }

  lemma MapEntrySpace(fs: Fs, a: nat, j: nat)
    requires Inv(fs) && a < |fs.blocks| && j < NINDIRECT
    ensures MapEntry(fs, a, j).Some? <==> |Spare(fs)| >= (if Word(fs.blocks[a], j) == 0 then 1 else 0)
    ensures MapEntry(fs, a, j).Some? ==> Spent(fs, MapEntry(fs, a, j).value.0, if Word(fs.blocks[a], j) == 0 then 1 else 0)
  {
    hide RefsOk;
    hide Distinct;
    hide BitmapOk;
    hide Balloc;
    hide Spare;
    hide Word;
    hide SetWord;
    BallocExact(fs);
    SpareIff(fs);
    if Word(fs.blocks[a], j) == 0 && MapEntry(fs, a, j).Some? {
      var (fs1, b) := MapEntry(fs, a, j).value;
      TakeOne(fs, fs1, b);
    }
  }

  lemma TableRef(fs: Fs, i: nat)
    requires Shape(fs) && i < |fs.inodes|
    ensures IsPointer(fs, i, NDIRECT) && (NoTable(fs, i) <==> Ref(fs, i, NDIRECT) == 0)
  {
  }

  // m has the table of file i, in block a, and its entries as they were.
  lemma EntryIs(fs: Fs, m: Fs, i: nat, bn: nat, a: nat)
    requires Inv(fs) && Inv(m) && i < |fs.inodes| && i < |m.inodes| && NDIRECT <= bn < MAXFILE
    requires a != 0 && Ref(m, i, NDIRECT) == a && RefOk(m, i, NDIRECT) && Ref(m, i, bn + 1) == Ref(fs, i, bn + 1)
    ensures a < |m.blocks| && (Word(m.blocks[a], bn - NDIRECT) != 0 <==> Has(fs, i, bn))
    ensures Word(m.blocks[a], bn - NDIRECT) == Ref(m, i, bn + 1)
  {
    hide RefsOk;
    hide Distinct;
    hide BitmapOk;
    hide Word;
  }

  /** bmap succeeds exactly if the disk has the blocks it needs, and takes just those. */
  lemma BmapExact(fs: Fs, i: nat, bn: nat)
    requires Inv(fs) && i < |fs.inodes| && bn < MAXFILE
    ensures Bmap(fs, i, bn).Some? <==> |Spare(fs)| >= Needed(fs, i, bn)
    ensures Bmap(fs, i, bn).Some? ==>
      var fs1 := Bmap(fs, i, bn).value.0;
      Spent(fs, fs1, Needed(fs, i, bn)) && |fs1.inodes| == |fs.inodes| && (NoTable(fs1, i) <==> NoTable(fs, i) && bn < NDIRECT)
  {
    hide RefsOk;
    hide Distinct;
    hide BitmapOk;
    hide MapAddr;
    hide MapEntry;
    hide Spare;
    hide Word;
    hide Ref;
    TableRef(fs, i);
    RefAt(fs, i, NDIRECT);
    if bn < NDIRECT {
      DirectSpace(fs, i, bn);
    } else {
      MapAddrSpace(fs, i, NDIRECT);
      NoTableNone(fs, i, bn);
      if MapAddr(fs, i, NDIRECT).Some? {
        MapAddrOk(fs, i, NDIRECT);
        var (m, a) := MapAddr(fs, i, NDIRECT).value;
        assert IsPointer(fs, i, bn + 1);
        EntryIs(fs, m, i, bn, a);
        MapEntrySpace(m, a, bn - NDIRECT);
        if MapEntry(m, a, bn - NDIRECT).Some? {
          MapEntryOk(m, i, bn - NDIRECT);
          assert IsPointer(m, i, NDIRECT);
          TableRef(MapEntry(m, a, bn - NDIRECT).value.0, i);
        }
      }
    }
  }

  lemma NoTableNone(fs: Fs, i: nat, bn: nat)
    requires Inv(fs) && i < |fs.inodes| && NDIRECT <= bn < MAXFILE
    ensures NoTable(fs, i) ==> !Has(fs, i, bn)
  {
  }

  lemma DirectSpace(fs: Fs, i: nat, bn: nat)
    requires Inv(fs) && i < |fs.inodes| && bn < NDIRECT
    ensures MapAddr(fs, i, bn).Some? <==> |Spare(fs)| >= Needed(fs, i, bn)
    ensures MapAddr(fs, i, bn).Some? ==>
      var fs1 := MapAddr(fs, i, bn).value.0;
      Spent(fs, fs1, Needed(fs, i, bn)) && |fs1.inodes| == |fs.inodes| && (NoTable(fs1, i) <==> NoTable(fs, i))
  {
    hide RefsOk;
    hide Distinct;
    hide BitmapOk;
    hide MapAddr;
    hide Spare;
    MapAddrSpace(fs, i, bn);
    if MapAddr(fs, i, bn).Some? {
      MapAddrOk(fs, i, bn);
      TableRef(fs, i);
      TableRef(MapAddr(fs, i, bn).value.0, i);
    }
  }

  // ---------------------------------------------------------------- writei

  /** The blocks that n bytes at off of file i touch and the file does not have. */
  ghost function Missing(fs: Fs, i: nat, off: nat, n: nat): set<nat>
    requires Shape(fs) && i < |fs.inodes|
  {
    set c: nat | c < MAXFILE && Touches(c, off, n) && !Has(fs, i, c)
  }

  /** Those, and the indirect block, if that is missing and a block behind it is touched. */
  ghost function Room(fs: Fs, i: nat, off: nat, n: nat): nat
    requires Shape(fs) && i < |fs.inodes|
  {
    |Missing(fs, i, off, n)| + if n > 0 && (off + n - 1) / BSIZE >= NDIRECT && NoTable(fs, i) then 1 else 0
  }

  lemma StoreSpace(fs: Fs, i: nat, bn: nat, o: nat, bytes: seq<Byte>)
    requires Inv(fs) && i < |fs.inodes| && bn < MAXFILE && Has(fs, i, bn) && o + |bytes| <= BSIZE
    ensures RefOk(fs, i, Pointer(bn))
    ensures var fs1 := Store(fs, Ref(fs, i, Pointer(bn)), o, bytes);
      Shape(fs1) && Spare(fs1) == Spare(fs) && |fs1.inodes| == |fs.inodes| && (NoTable(fs1, i) <==> NoTable(fs, i))
  {
    hide Ref;
    hide Distinct;
    hide BitmapOk;
    assert IsPointer(fs, i, Pointer(bn));
    RefAt(fs, i, Pointer(bn));
  }

  // The first block of a write against the rest: fs1 has it.
  lemma RoomSplits(fs: Fs, fs1: Fs, i: nat, off: nat, n: nat)
    requires Shape(fs) && Shape(fs1) && i < |fs.inodes| && i < |fs1.inodes| && n > 0 && off + n <= MAXFILE * BSIZE
    requires forall c: nat | c < MAXFILE :: Has(fs1, i, c) <==> Has(fs, i, c) || c == off / BSIZE
    requires NoTable(fs1, i) <==> NoTable(fs, i) && off / BSIZE < NDIRECT
    requires NoTable(fs, i) ==> forall c: nat | NDIRECT <= c < MAXFILE :: !Has(fs, i, c)
    ensures off / BSIZE < MAXFILE && Piece(off, n) <= n
    ensures Room(fs, i, off, n) == Needed(fs, i, off / BSIZE) + Room(fs1, i, off + Piece(off, n), n - Piece(off, n))
  {
    hide Has;
    var m, bn := Piece(off, n), off / BSIZE;
    PieceArith(off, n);
    LastBlock(off, n);
    var now, later := Missing(fs, i, off, n), Missing(fs1, i, off + m, n - m);
    assert bn !in later;
    if Has(fs, i, bn) { assert now == later; } else { assert now == later + {bn}; }
  }

  // Where the last byte of the rest is.
  lemma LastBlock(off: nat, n: nat)
    requires n > 0 && off + n <= MAXFILE * BSIZE
    ensures Piece(off, n) <= n && off / BSIZE <= (off + n - 1) / BSIZE < MAXFILE
    ensures n == Piece(off, n) ==> (off + n - 1) / BSIZE == off / BSIZE
    ensures n > Piece(off, n) ==> (off + Piece(off, n) + (n - Piece(off, n)) - 1) / BSIZE == (off + n - 1) / BSIZE
  {
    PieceArith(off, n);
    if n == Piece(off, n) { PieceTouches(off, n); }
  }

  lemma {:induction false} WriteFromExact(fs: Fs, i: nat, src: seq<Byte>, off: nat)
    requires Inv(fs) && i < |fs.inodes| && off + |src| <= MAXFILE * BSIZE
    ensures WriteFrom(fs, i, src, off).Some? <==> |Spare(fs)| >= Room(fs, i, off, |src|)
    ensures WriteFrom(fs, i, src, off).Some? ==> Spent(fs, WriteFrom(fs, i, src, off).value, Room(fs, i, off, |src|))
    decreases |src|
  {
    hide Ref;
    hide RefsOk;
    hide Distinct;
    hide BitmapOk;
    hide Bmap;
    hide Store;
    hide Spare;
    hide Room;
    hide Needed;
    hide Wrote;
    if src == [] {
      NoRoom(fs, i, off);
    } else {
      var bn, m := off / BSIZE, Piece(off, |src|);
      LastBlock(off, |src|);
      BmapExact(fs, i, bn);
      RoomFirst(fs, i, off, |src|);
      if Bmap(fs, i, bn).Some? {
        var (fs1, a) := Bmap(fs, i, bn).value;
        WriteOne(fs, i, src, off);
        BmapOk(fs, i, bn);
        PieceArith(off, |src|);
        StoreSpace(fs1, i, bn, off % BSIZE, src[..m]);
        StoreOk(fs1, i, bn, off % BSIZE, src[..m]);
        var fs2 := Store(fs1, a, off % BSIZE, src[..m]);
        TablesNone(fs, i);
        GainedThere(fs, fs1, fs2, i, bn);
        RoomSplits(fs, fs2, i, off, |src|);
        WriteFromExact(fs2, i, src[m..], off + m);
      }
    }
  }

  lemma GainedThere(fs: Fs, fs1: Fs, fs2: Fs, i: nat, bn: nat)
    requires OnlyGains(fs, fs1, i, bn) && Shape(fs2) && |fs2.inodes| == |fs1.inodes|
    requires forall j: nat, c: nat | j < |fs1.inodes| && c < MAXFILE :: Has(fs2, j, c) == Has(fs1, j, c)
    ensures i < |fs.inodes| && forall c: nat | c < MAXFILE :: Has(fs2, i, c) <==> Has(fs, i, c) || c == bn
  {
    hide Has;
  }

  lemma TablesNone(fs: Fs, i: nat)
    requires Inv(fs) && i < |fs.inodes|
    ensures NoTable(fs, i) ==> forall c: nat | NDIRECT <= c < MAXFILE :: !Has(fs, i, c)
  {
  }

  lemma NoRoom(fs: Fs, i: nat, off: nat)
    requires Shape(fs) && i < |fs.inodes|
    ensures Room(fs, i, off, 0) == 0
  {
    assert Missing(fs, i, off, 0) == {};
  }

  // The first block alone needs no more than all of them.
  lemma RoomFirst(fs: Fs, i: nat, off: nat, n: nat)
    requires Inv(fs) && i < |fs.inodes| && n > 0 && off + n <= MAXFILE * BSIZE
    ensures off / BSIZE < MAXFILE && Needed(fs, i, off / BSIZE) <= Room(fs, i, off, n)
  {
    hide Has;
    LastBlock(off, n);
    if !Has(fs, i, off / BSIZE) { assert off / BSIZE in Missing(fs, i, off, n); }
  }

  /** writei succeeds exactly if it refuses the request or the disk has a block for each one that the
      write touches and the file lacks, and for the indirect block when that is needed and missing;
      and it takes just those. */
  lemma WriteiExact(fs: Fs, i: nat, src: seq<Byte>, off: nat)
    requires Inv(fs) && i < |fs.inodes| && |src| < UINT && off < UINT
    ensures var refused := off > fs.inodes[i].size || off + |src| >= UINT;
      && (!refused ==> off <= MAXFILE * BSIZE)
      && (Writei(fs, i, src, off).Some? <==> refused || |Spare(fs)| >= Room(fs, i, off, Clipped(off, |src|)))
      && (Writei(fs, i, src, off).Some? && !refused ==> Spent(fs, Writei(fs, i, src, off).value.0, Room(fs, i, off, Clipped(off, |src|))))
  {
    hide Ref;
    hide RefsOk;
    hide Distinct;
    hide BitmapOk;
    hide WriteFrom;
    hide Room;
    WraptAround(off, |src|);
    if !(off > fs.inodes[i].size || Wraps(off, |src|)) {
      var n := Clipped(off, |src|);
      WriteFromExact(fs, i, src[..n], off);
      if Writei(fs, i, src, off).Some? {
        WriteFromOk(fs, i, src[..n], off);
        assert Spare(Writei(fs, i, src, off).value.0) == Spare(WriteFrom(fs, i, src[..n], off).value);
      }
    }
  }
}
