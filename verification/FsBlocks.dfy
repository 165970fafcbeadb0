/** The block layer of P5_XV6_CoW_Fork/kernel/fs.c: the bitmap allocator, the direct and
    indirect block map of inodes, and truncation, on values. */
module FsBlocks {
  import opened Wrappers

  const BSIZE: nat := 512
  const NDIRECT: nat := 12
  const NINDIRECT: nat := 128
  const MAXFILE: nat := NDIRECT + NINDIRECT
  const NREFS: nat := MAXFILE + 1
  const UINT: nat := 0x1_0000_0000

  type Byte = x: int | 0 <= x < 256
  type Block = b: seq<Byte> | |b| == BSIZE witness seq(BSIZE, i => 0)

  function Zero(): (b: Block)
    ensures forall k | 0 <= k < BSIZE :: b[k] == 0
  {
    seq(BSIZE, i => 0)
  }

  /** addrs: NDIRECT data blocks and the indirect block; 0 is none. */
  datatype Inode = Inode(addrs: seq<nat>, size: nat)

  // Bits of the bitmap in one block.
  const BPB: nat := BSIZE * 8

  /** The bitmap takes whole blocks: its last bits stand for blocks beyond the disk. */
  function BitmapBits(size: nat): (n: nat)
    ensures size <= n < size + BPB && n % BPB == 0
  {
    (size + BPB - 1) / BPB * BPB
  }

  /** used: the bitmap.  inodes: the in-memory inodes; disk: what iupdate last wrote of them.
      Blocks below dstart hold the superblock, the inodes and the bitmap. */
  datatype Fs = Fs(used: seq<bool>, blocks: seq<Block>, dstart: nat, inodes: seq<Inode>, disk: seq<Inode>)

  ghost predicate Shape(fs: Fs) {
    && |fs.blocks| <= UINT && |fs.used| == BitmapBits(|fs.blocks|) && 1 <= fs.dstart <= |fs.blocks| && |fs.disk| == |fs.inodes|
    && forall i | 0 <= i < |fs.inodes| :: |fs.inodes[i].addrs| == NDIRECT + 1 && fs.inodes[i].size <= MAXFILE * BSIZE
  }

  // ---------------------------------------------------------------- words of an indirect block

  /** Word j of a block, least significant byte first. */
  function Word(b: Block, j: nat): (w: nat)
    requires j < NINDIRECT
    ensures w < UINT
  {
    var b0: int, b1: int, b2: int, b3: int := b[4 * j], b[4 * j + 1], b[4 * j + 2], b[4 * j + 3];
    b0 + 0x100 * b1 + 0x1_0000 * b2 + 0x100_0000 * b3
  }

  function ByteOf(v: nat, n: nat): Byte
    requires n > 0
  {
    v / n % 256
  }

  function SetWord(b: Block, j: nat, v: nat): Block
    requires j < NINDIRECT && v < UINT
  {
    b[4 * j := ByteOf(v, 1)][4 * j + 1 := ByteOf(v, 0x100)][4 * j + 2 := ByteOf(v, 0x1_0000)][4 * j + 3 := ByteOf(v, 0x100_0000)]
  }

  lemma BytesOfWord(v: nat)
    requires v < UINT
    ensures ByteOf(v, 1) + 0x100 * ByteOf(v, 0x100) + 0x1_0000 * ByteOf(v, 0x1_0000) + 0x100_0000 * ByteOf(v, 0x100_0000) == v
  {
    assert v / 0x1_0000 == v / 0x100 / 0x100 && v / 0x100_0000 == v / 0x1_0000 / 0x100;
  }

  /** The bytes of a word are in the block, the low one first. */
  lemma WordBytes(b: Block, j: nat)
    requires j < NINDIRECT
    ensures var w := Word(b, j);
      b[4 * j] == w % 256 && b[4 * j + 1] == w / 256 % 256 && b[4 * j + 2] == w / 256 / 256 % 256 && b[4 * j + 3] == w / 256 / 256 / 256
  {
    var b1: int, b2: int, b3: int := b[4 * j + 1], b[4 * j + 2], b[4 * j + 3];
    Digit(b[4 * j], b1 + 256 * (b2 + 256 * b3));
    Digit(b[4 * j + 1], b2 + 256 * b3);
    Digit(b[4 * j + 2], b3);
  }

  lemma Digit(d: Byte, rest: nat)
    ensures (d + 256 * rest) % 256 == d && (d + 256 * rest) / 256 == rest
  {
  }

  /** Storing a word and reading words back. */
  lemma WordOfSetWord(b: Block, j: nat, v: nat, l: nat)
    requires j < NINDIRECT && l < NINDIRECT && v < UINT
    ensures Word(SetWord(b, j, v), l) == if l == j then v else Word(b, l)
  {
    hide ByteOf;
    BytesOfWord(v);
  }

  // ---------------------------------------------------------------- references

  /** The block that pointer k of inode i holds: 0..11 the direct blocks, 12 the indirect block,
      13..140 the entries of the indirect block. */
  function Ref(fs: Fs, i: nat, k: nat): nat
    requires i < |fs.inodes| && |fs.inodes[i].addrs| == NDIRECT + 1 && k < NREFS
  {
    var addrs := fs.inodes[i].addrs;
    if k <= NDIRECT then addrs[k]
    else if addrs[NDIRECT] == 0 || addrs[NDIRECT] >= |fs.blocks| then 0
    else Word(fs.blocks[addrs[NDIRECT]], k - NDIRECT - 1)
  }

  // The pointer of the bn-th block of a file.
  function Pointer(bn: nat): nat { if bn < NDIRECT then bn else bn + 1 }

  ghost predicate IsPointer(fs: Fs, i: nat, k: nat) { i < |fs.inodes| && k < NREFS }

  ghost predicate RefOk(fs: Fs, i: nat, k: nat)
    requires Shape(fs) && IsPointer(fs, i, k)
  {
    Ref(fs, i, k) != 0 ==> fs.dstart <= Ref(fs, i, k) < |fs.blocks| && fs.used[Ref(fs, i, k)]
  }

  ghost predicate RefsOk(fs: Fs)
    requires Shape(fs)
  {
    forall i: nat, k: nat | IsPointer(fs, i, k) :: RefOk(fs, i, k)
  }

  /** No block is held by two pointers, of one inode or of two. */
  ghost predicate Distinct(fs: Fs)
    requires Shape(fs)
  {
    forall i: nat, k: nat, j: nat, l: nat | IsPointer(fs, i, k) && IsPointer(fs, j, l) && Ref(fs, i, k) != 0 && Ref(fs, i, k) == Ref(fs, j, l) ::
      i == j && k == l
  }

  ghost predicate Held(fs: Fs, b: nat)
    requires Shape(fs)
  {
    exists i: nat, k: nat :: IsPointer(fs, i, k) && Ref(fs, i, k) == b
  }

  /** A data block is marked in the bitmap exactly when some pointer holds it, and is all zeros
      when it is free; the blocks before the data are marked. */
  ghost predicate BitmapOk(fs: Fs)
    requires Shape(fs)
  {
    && (forall b | 0 <= b < fs.dstart :: fs.used[b])
    && (forall b | fs.dstart <= b < |fs.blocks| && fs.used[b] :: Held(fs, b))
    && (forall b | fs.dstart <= b < |fs.blocks| && !fs.used[b] :: fs.blocks[b] == Zero())
  }

  ghost predicate Inv(fs: Fs) { Shape(fs) && RefsOk(fs) && Distinct(fs) && BitmapOk(fs) }

  lemma RefAt(fs: Fs, i: nat, k: nat)
    requires Inv(fs) && IsPointer(fs, i, k)
    ensures RefOk(fs, i, k)
  {
  }

  lemma DistinctAt(fs: Fs, i: nat, k: nat, j: nat, l: nat)
    requires Inv(fs) && IsPointer(fs, i, k) && IsPointer(fs, j, l) && Ref(fs, i, k) != 0 && Ref(fs, i, k) == Ref(fs, j, l)
    ensures i == j && k == l
  {
  }

  // ---------------------------------------------------------------- balloc and bfree

  /** The first clear bit from b on; the number of bits if there is none. */
  function FirstFree(fs: Fs, b: nat): (r: nat)
    requires b <= |fs.used|
    ensures b <= r <= |fs.used| && (r < |fs.used| ==> !fs.used[r])
    ensures forall c | b <= c < r :: fs.used[c]
    decreases |fs.used| - b
  {
    if b == |fs.used| || !fs.used[b] then b else FirstFree(fs, b + 1)
  }

  /** None is the panic: out of blocks.  The scan takes the bits beyond the disk like the others. */
  function Balloc(fs: Fs): Option<(Fs, nat)>
  {
    var b := FirstFree(fs, 0);
    if b == |fs.used| then None else Some((fs.(used := fs.used[b := true]), b))
  }

  /** None is the panic: freeing a free block, or one the disk does not have. */
  function Bfree(fs: Fs, b: nat): Option<Fs>
  {
    if b >= |fs.blocks| || b >= |fs.used| || !fs.used[b] then None
    else Some(fs.(blocks := fs.blocks[b := Zero()], used := fs.used[b := false]))
  }

  /** balloc gives a block of the disk exactly if one is free.  Otherwise it gives one that the disk
      does not have, and panics only if the bitmap's last bits are set too.  It is always the first
      whose bit is clear, and that bit is all that changes. */
  lemma BallocExact(fs: Fs)
    requires Shape(fs)
    ensures Balloc(fs).Some? ==>
      var (fs1, b) := Balloc(fs).value;
      b < |fs.used| && !fs.used[b] && (forall c | 0 <= c < b :: fs.used[c]) && fs1 == fs.(used := fs.used[b := true])
    ensures (Balloc(fs).Some? && Balloc(fs).value.1 < |fs.blocks|) <==> exists b :: 0 <= b < |fs.blocks| && !fs.used[b]
    ensures Balloc(fs).None? <==> forall b | 0 <= b < |fs.used| :: fs.used[b]
  {
  }

  /** Unless the size is a multiple of 4096, a full disk whose last bits are clear, as mkfs leaves
      them, does not panic: the next block lies beyond it. */
  lemma FullDiskGoesOn(fs: Fs)
    requires Shape(fs) && |fs.blocks| % BPB != 0 && forall b | 0 <= b < |fs.used| :: fs.used[b] <==> b < |fs.blocks|
    ensures Balloc(fs).Some? && Balloc(fs).value.1 == |fs.blocks|
  {
    assert |fs.blocks| < |fs.used| && !fs.used[|fs.blocks|];
  }

  function SetAddr(fs: Fs, i: nat, k: nat, b: nat): Fs
    requires i < |fs.inodes| && k < |fs.inodes[i].addrs|
  {
    fs.(inodes := fs.inodes[i := fs.inodes[i].(addrs := fs.inodes[i].addrs[k := b])])
  }

  /** The address in pointer k of inode i, k at most NDIRECT, allocating it if there is none; None
      is a panic, or a block beyond the disk, which cannot be used. */
  function MapAddr(fs: Fs, i: nat, k: nat): Option<(Fs, nat)>
    requires i < |fs.inodes| && |fs.inodes[i].addrs| == NDIRECT + 1 && k <= NDIRECT
  {
    if fs.inodes[i].addrs[k] != 0 then Some((fs, fs.inodes[i].addrs[k]))
    else
      match Balloc(fs)
      case None => None
      case Some((fs1, b)) => if b >= |fs.blocks| then None else Some((SetAddr(fs1, i, k, b), b))
  }

  /** The same for entry j of the indirect block a. */
  function MapEntry(fs: Fs, a: nat, j: nat): Option<(Fs, nat)>
    requires a < |fs.blocks| <= UINT && j < NINDIRECT
  {
    if Word(fs.blocks[a], j) != 0 then Some((fs, Word(fs.blocks[a], j)))
    else
      match Balloc(fs)
      case None => None
      case Some((fs1, b)) =>
        if b >= |fs.blocks| then None else Some((fs1.(blocks := fs1.blocks[a := SetWord(fs1.blocks[a], j, b)]), b))
  }

  /** bmap; None is a panic, or a block beyond the disk. */
  function Bmap(fs: Fs, i: nat, bn: nat): Option<(Fs, nat)>
    requires Shape(fs) && RefsOk(fs) && i < |fs.inodes|
  {
    if bn < NDIRECT then MapAddr(fs, i, bn)
    else if bn - NDIRECT < NINDIRECT then
      match MapAddr(fs, i, NDIRECT)
      case None => None
      case Some((fs1, a)) => assert RefOk(fs, i, NDIRECT); MapEntry(fs1, a, bn - NDIRECT)
    else None
  }

  // ---------------------------------------------------------------- giving a pointer a fresh block

  /** Pointer k of inode i, empty before, gets the fresh block b: everything else is as it was. */
  ghost predicate Gains(fs: Fs, fs1: Fs, i: nat, k: nat, b: nat) {
    && Shape(fs) && Shape(fs1) && IsPointer(fs, i, k) && |fs1.inodes| == |fs.inodes| && |fs1.blocks| == |fs.blocks|
    && fs1.dstart == fs.dstart && fs1.disk == fs.disk
    && fs.dstart <= b < |fs.blocks| && !fs.used[b] && fs1.used == fs.used[b := true]
    && Ref(fs, i, k) == 0 && Ref(fs1, i, k) == b
    && (forall j: nat, l: nat | IsPointer(fs, j, l) && !(j == i && l == k) :: Ref(fs1, j, l) == Ref(fs, j, l))
    && (forall j: nat | j < |fs.inodes| :: fs1.inodes[j].size == fs.inodes[j].size && (j != i ==> fs1.inodes[j] == fs.inodes[j]))
    && (forall c | 0 <= c < |fs.blocks| && fs1.blocks[c] != fs.blocks[c] :: c == Ref(fs, i, NDIRECT) && c != 0 && k > NDIRECT)
  }

  lemma GainsInv(fs: Fs, fs1: Fs, i: nat, k: nat, b: nat)
    requires Inv(fs) && Gains(fs, fs1, i, k, b)
    ensures Inv(fs1)
  {
    hide Ref;
    GainsRefs(fs, fs1, i, k, b);
    GainsDistinct(fs, fs1, i, k, b);
    GainsBitmap(fs, fs1, i, k, b);
  }

  lemma GainsRefs(fs: Fs, fs1: Fs, i: nat, k: nat, b: nat)
    requires Inv(fs) && Gains(fs, fs1, i, k, b)
    ensures RefsOk(fs1)
  {
    hide Ref;
    hide Distinct;
    hide BitmapOk;
    forall j: nat, l: nat | IsPointer(fs1, j, l) ensures RefOk(fs1, j, l) { RefAt(fs, j, l); }
  }

  lemma GainsDistinct(fs: Fs, fs1: Fs, i: nat, k: nat, b: nat)
    requires Inv(fs) && Gains(fs, fs1, i, k, b)
    ensures Distinct(fs1)
  {
    hide Ref;
    hide BitmapOk;
    forall j: nat, l: nat | IsPointer(fs, j, l) ensures Ref(fs, j, l) != b { RefAt(fs, j, l); }
  }

  lemma GainsBitmap(fs: Fs, fs1: Fs, i: nat, k: nat, b: nat)
    requires Inv(fs) && Gains(fs, fs1, i, k, b)
    ensures BitmapOk(fs1)
  {
    hide Ref;
    hide Distinct;
    hide Zero;
    RefAt(fs, i, NDIRECT);
    forall c: nat | fs1.dstart <= c < |fs1.blocks| && fs1.used[c] ensures Held(fs1, c) {
      if c == b {
        assert IsPointer(fs1, i, k);
      } else {
        assert Held(fs, c);
        var j: nat, l: nat :| IsPointer(fs, j, l) && Ref(fs, j, l) == c;
        assert IsPointer(fs1, j, l);
      }
    }
  }

  lemma FreshBlock(fs: Fs)
    requires Inv(fs) && FirstFree(fs, 0) < |fs.blocks|
    ensures var b := FirstFree(fs, 0); fs.dstart <= b && !fs.used[b] && fs.blocks[b] == Zero()
  {
    hide Ref;
    hide RefsOk;
    hide Distinct;
    hide Zero;
  }

  lemma MapAddrGains(fs: Fs, i: nat, k: nat)
    requires Inv(fs) && i < |fs.inodes| && k <= NDIRECT && fs.inodes[i].addrs[k] == 0 && MapAddr(fs, i, k).Some?
    ensures var (fs1, b) := MapAddr(fs, i, k).value; Gains(fs, fs1, i, k, b)
  {
    hide RefsOk;
    hide Distinct;
    hide BitmapOk;
    hide FirstFree;
    FreshBlock(fs);
    var (fs1, b) := MapAddr(fs, i, k).value;
    assert Shape(fs1);
    forall l: nat | l < NINDIRECT ensures Word(fs.blocks[b], l) == 0 {}
  }

  lemma MapEntryGains(fs: Fs, i: nat, j: nat)
    requires Inv(fs) && i < |fs.inodes| && j < NINDIRECT && Ref(fs, i, NDIRECT) != 0 && RefOk(fs, i, NDIRECT)
    requires Ref(fs, i, NDIRECT + 1 + j) == 0 && MapEntry(fs, Ref(fs, i, NDIRECT), j).Some?
    ensures var (fs1, b) := MapEntry(fs, Ref(fs, i, NDIRECT), j).value; Gains(fs, fs1, i, NDIRECT + 1 + j, b)
  {
    hide RefsOk;
    hide Distinct;
    hide BitmapOk;
    hide FirstFree;
    hide Word;
    hide SetWord;
    hide Zero;
    FreshBlock(fs);
    var a := Ref(fs, i, NDIRECT);
    var (fs1, b) := MapEntry(fs, a, j).value;
    assert Shape(fs1);
    forall x: nat, l: nat | IsPointer(fs, x, l) && !(x == i && l == NDIRECT + 1 + j) ensures Ref(fs1, x, l) == Ref(fs, x, l) {
      if l > NDIRECT {
        if x == i { WordOfSetWord(fs.blocks[a], j, b, l - NDIRECT - 1); }
        else if Ref(fs, x, NDIRECT) == a { DistinctAt(fs, i, NDIRECT, x, NDIRECT); }
      }
    }
    WordOfSetWord(fs.blocks[a], j, b, j);
  }

  // ---------------------------------------------------------------- what bmap does

  /** The byte at offset o of file i; bytes of blocks the file does not have are zero. */
  function FileByte(fs: Fs, i: nat, o: nat): Byte
    requires i < |fs.inodes| && |fs.inodes[i].addrs| == NDIRECT + 1 && o < MAXFILE * BSIZE
  {
    var a := Ref(fs, i, Pointer(o / BSIZE));
    if a == 0 || a >= |fs.blocks| then 0 else fs.blocks[a][o % BSIZE]
  }

  // The pointer v lies at byte o of the block, the low byte first.
  predicate PointerIn(b: Block, o: nat, v: nat)
    requires o + 4 <= BSIZE
  {
    b[o] == v % 256 && b[o + 1] == v / 256 % 256 && b[o + 2] == v / 256 / 256 % 256 && b[o + 3] == v / 256 / 256 / 256
  }

  /** Where a byte of a file is: the block's number is in the inode for the first twelve blocks, and
      for the others in the block that the thirteenth pointer names, four bytes to a number. */
  lemma FilePlace(fs: Fs, i: nat, o: nat) returns (a: nat)
    requires Inv(fs) && i < |fs.inodes| && o < 140 * 512
    ensures a == Ref(fs, i, Pointer(o / 512))
    ensures |fs.inodes[i].addrs| == 13 && var table := fs.inodes[i].addrs[12];
      if o / 512 < 12 then a == fs.inodes[i].addrs[o / 512]
      else if table == 0 then a == 0
      else table < |fs.blocks| && PointerIn(fs.blocks[table], 4 * (o / 512 - 12), a)
    ensures if a == 0 then FileByte(fs, i, o) == 0 else a < |fs.blocks| && FileByte(fs, i, o) == fs.blocks[a][o % 512]
  {
    hide Distinct;
    hide BitmapOk;
    hide Word;
    var bn := o / 512;
    assert bn < MAXFILE;
    a := Ref(fs, i, Pointer(bn));
    assert IsPointer(fs, i, Pointer(bn)) && IsPointer(fs, i, NDIRECT);
    RefAt(fs, i, Pointer(bn));
    RefAt(fs, i, NDIRECT);
    if bn >= NDIRECT && fs.inodes[i].addrs[NDIRECT] != 0 { WordBytes(fs.blocks[fs.inodes[i].addrs[NDIRECT]], bn - NDIRECT); }
  }

  ghost predicate Has(fs: Fs, i: nat, bn: nat)
    requires Shape(fs) && i < |fs.inodes| && bn < MAXFILE
  {
    Ref(fs, i, Pointer(bn)) != 0
  }

  /** The files read the same: sizes, bytes, and the disk's copy of the inodes. */
  ghost predicate SameFiles(fs: Fs, fs1: Fs) {
    && Shape(fs) && Shape(fs1) && |fs1.inodes| == |fs.inodes| && |fs1.blocks| == |fs.blocks| && fs1.dstart == fs.dstart
    && fs1.disk == fs.disk
    && (forall j: nat | j < |fs.inodes| :: fs1.inodes[j].size == fs.inodes[j].size)
    && (forall j: nat, o: nat | j < |fs.inodes| && o < MAXFILE * BSIZE :: FileByte(fs1, j, o) == FileByte(fs, j, o))
  }

  /** Only file i gains blocks, and only its bn-th. */
  ghost predicate OnlyGains(fs: Fs, fs1: Fs, i: nat, bn: nat) {
    && Shape(fs) && Shape(fs1) && |fs1.inodes| == |fs.inodes| && i < |fs.inodes|
    && (forall j: nat | j < |fs.inodes| && j != i :: fs1.inodes[j] == fs.inodes[j])
    && (forall j: nat, c: nat | j < |fs.inodes| && c < MAXFILE :: Has(fs1, j, c) <==> Has(fs, j, c) || (j == i && c == bn))
  }

  lemma GainsFiles(fs: Fs, fs1: Fs, i: nat, k: nat, b: nat)
    requires Inv(fs) && Gains(fs, fs1, i, k, b)
    ensures SameFiles(fs, fs1)
  {
    hide Ref;
    forall j: nat, o: nat | j < |fs.inodes| && o < MAXFILE * BSIZE ensures FileByte(fs1, j, o) == FileByte(fs, j, o) {
      GainsByte(fs, fs1, i, k, b, j, o);
    }
  }

  lemma GainsByte(fs: Fs, fs1: Fs, i: nat, k: nat, b: nat, j: nat, o: nat)
    requires Inv(fs) && Gains(fs, fs1, i, k, b) && j < |fs.inodes| && o < MAXFILE * BSIZE
    ensures FileByte(fs1, j, o) == FileByte(fs, j, o)
  {
    hide Ref;
    hide RefsOk;
    hide Distinct;
    var l := Pointer(o / BSIZE);
    assert IsPointer(fs, j, l);
    RefAt(fs, i, NDIRECT);
    RefAt(fs, j, l);
    var a := Ref(fs, j, l);
    if a != 0 && a == Ref(fs, i, NDIRECT) { DistinctAt(fs, j, l, i, NDIRECT); }
  }

  /** bmap keeps the invariant and every file as it reads, and gives the file that block and no
      other; it changes nothing when the file has the block. */
  lemma BmapOk(fs: Fs, i: nat, bn: nat)
    requires Inv(fs) && i < |fs.inodes| && Bmap(fs, i, bn).Some?
    ensures bn < MAXFILE
    ensures var (fs1, a) := Bmap(fs, i, bn).value;
      && Inv(fs1) && SameFiles(fs, fs1) && OnlyGains(fs, fs1, i, bn)
      && Ref(fs1, i, Pointer(bn)) == a && fs1.dstart <= a < |fs1.blocks|
      && (Has(fs, i, bn) ==> fs1 == fs)
  {
    hide Ref;
    hide RefsOk;
    hide Distinct;
    hide BitmapOk;
    hide MapAddr;
    hide MapEntry;
    hide FileByte;
    if bn < NDIRECT {
      MapAddrOk(fs, i, bn);
    } else {
      MapAddrOk(fs, i, NDIRECT);
      var (m, a) := MapAddr(fs, i, NDIRECT).value;
      MapEntryOk(m, i, bn - NDIRECT);
      RefZero(fs, i, bn);
    }
  }

  lemma RefZero(fs: Fs, i: nat, bn: nat)
    requires Inv(fs) && i < |fs.inodes| && NDIRECT <= bn < MAXFILE
    ensures Has(fs, i, bn) ==> Ref(fs, i, NDIRECT) != 0
  {
  }

  lemma MapAddrOk(fs: Fs, i: nat, k: nat)
    requires Inv(fs) && i < |fs.inodes| && k <= NDIRECT && MapAddr(fs, i, k).Some?
    ensures var (fs1, a) := MapAddr(fs, i, k).value;
      && Inv(fs1) && SameFiles(fs, fs1) && Ref(fs1, i, k) == a && RefOk(fs1, i, k) && a != 0
      && (Ref(fs, i, k) != 0 ==> fs1 == fs)
      && (forall j: nat | j < |fs.inodes| && j != i :: fs1.inodes[j] == fs.inodes[j])
      && (forall j: nat, l: nat | IsPointer(fs, j, l) && !(j == i && l == k) :: Ref(fs1, j, l) == Ref(fs, j, l))
  {
    hide RefsOk;
    hide Distinct;
    hide BitmapOk;
    hide FileByte;
    if fs.inodes[i].addrs[k] == 0 {
      var (fs1, b) := MapAddr(fs, i, k).value;
      MapAddrGains(fs, i, k);
      GainsInv(fs, fs1, i, k, b);
      GainsFiles(fs, fs1, i, k, b);
    }
    RefAt(MapAddr(fs, i, k).value.0, i, k);
  }

  lemma MapEntryOk(fs: Fs, i: nat, j: nat)
    requires Inv(fs) && i < |fs.inodes| && j < NINDIRECT && Ref(fs, i, NDIRECT) != 0 && RefOk(fs, i, NDIRECT)
    requires MapEntry(fs, Ref(fs, i, NDIRECT), j).Some?
    ensures var (fs1, a) := MapEntry(fs, Ref(fs, i, NDIRECT), j).value; var k := NDIRECT + 1 + j;
      && Inv(fs1) && SameFiles(fs, fs1) && Ref(fs1, i, k) == a && RefOk(fs1, i, k) && a != 0
      && (Ref(fs, i, k) != 0 ==> fs1 == fs)
      && (forall x: nat | x < |fs.inodes| && x != i :: fs1.inodes[x] == fs.inodes[x])
      && (forall x: nat, l: nat | IsPointer(fs, x, l) && !(x == i && l == k) :: Ref(fs1, x, l) == Ref(fs, x, l))
  {
    hide RefsOk;
    hide Distinct;
    hide BitmapOk;
    hide FileByte;
    hide Word;
    var k := NDIRECT + 1 + j;
    if Ref(fs, i, k) == 0 {
      var (fs1, b) := MapEntry(fs, Ref(fs, i, NDIRECT), j).value;
      MapEntryGains(fs, i, j);
      GainsInv(fs, fs1, i, k, b);
      GainsFiles(fs, fs1, i, k, b);
    }
    RefAt(MapEntry(fs, Ref(fs, i, NDIRECT), j).value.0, i, k);
  }
}
