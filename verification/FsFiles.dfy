/** readi and writei of P5_XV6_CoW_Fork/kernel/fs.c: a file is a sequence of bytes. */
module FsFiles {
  import opened Wrappers
  import opened FsBlocks
  import opened FsTrunc

  function Min(a: int, b: int): int { if a <= b then a else b }

  function Max(a: int, b: int): int { if a >= b then a else b }

  // memmove into block a at offset o.
  function Store(fs: Fs, a: nat, o: nat, bytes: seq<Byte>): Fs
    requires a < |fs.blocks| && o + |bytes| <= BSIZE
  {
    var b: seq<Byte> := fs.blocks[a];
    var b1: Block := b[..o] + bytes + b[o + |bytes|..];
    fs.(blocks := fs.blocks[a := b1])
  }

  /** Storing into a data block of file i keeps the invariant and changes those bytes only. */
  lemma StoreOk(fs: Fs, i: nat, bn: nat, o: nat, bytes: seq<Byte>)
    requires Inv(fs) && i < |fs.inodes| && bn < MAXFILE && Has(fs, i, bn) && o + |bytes| <= BSIZE
    ensures RefOk(fs, i, Pointer(bn))
    ensures var fs1 := Store(fs, Ref(fs, i, Pointer(bn)), o, bytes);
      && Inv(fs1) && fs1.inodes == fs.inodes && fs1.disk == fs.disk && |fs1.blocks| == |fs.blocks|
      && (forall j: nat, c: nat | j < |fs.inodes| && c < MAXFILE :: Has(fs1, j, c) == Has(fs, j, c))
      && (forall j: nat, x: nat | j < |fs.inodes| && x < MAXFILE * BSIZE ::
            FileByte(fs1, j, x) ==
              if j == i && bn * BSIZE + o <= x < bn * BSIZE + o + |bytes| then bytes[x - (bn * BSIZE + o)] else FileByte(fs, j, x))
  {
    assert IsPointer(fs, i, Pointer(bn));
    RefAt(fs, i, Pointer(bn));
    var a := Ref(fs, i, Pointer(bn));
    var fs1 := Store(fs, a, o, bytes);
    StoreRefs(fs, i, bn, fs1);
    StoreInv(fs, i, bn, fs1);
    forall j: nat, x: nat | j < |fs.inodes| && x < MAXFILE * BSIZE
      ensures FileByte(fs1, j, x) ==
        if j == i && bn * BSIZE + o <= x < bn * BSIZE + o + |bytes| then bytes[x - (bn * BSIZE + o)] else FileByte(fs, j, x)
    {
      StoreByte(fs, i, bn, o, bytes, j, x);
    }
  }

  // fs1 differs from fs in the contents of the bn-th block of file i.
  ghost predicate Stored(fs: Fs, i: nat, bn: nat, fs1: Fs) {
    && Shape(fs) && i < |fs.inodes| && bn < MAXFILE && Has(fs, i, bn) && RefOk(fs, i, Pointer(bn))
    && fs1 == fs.(blocks := fs1.blocks) && |fs1.blocks| == |fs.blocks|
    && forall c | 0 <= c < |fs.blocks| && c != Ref(fs, i, Pointer(bn)) :: fs1.blocks[c] == fs.blocks[c]
  }

  lemma StoreRefs(fs: Fs, i: nat, bn: nat, fs1: Fs)
    requires Inv(fs) && Stored(fs, i, bn, fs1)
    ensures Shape(fs1) && forall j: nat, k: nat | IsPointer(fs, j, k) :: Ref(fs1, j, k) == Ref(fs, j, k)
  {
    hide RefsOk;
    hide BitmapOk;
    forall j: nat, k: nat | IsPointer(fs, j, k) ensures Ref(fs1, j, k) == Ref(fs, j, k) {
      assert IsPointer(fs, j, NDIRECT) && IsPointer(fs, i, Pointer(bn));
    }
  }

  lemma StoreInv(fs: Fs, i: nat, bn: nat, fs1: Fs)
    requires Inv(fs) && Stored(fs, i, bn, fs1)
    ensures Inv(fs1)
  {
    hide Ref;
    hide Zero;
    StoreRefs(fs, i, bn, fs1);
    forall j: nat, k: nat | IsPointer(fs1, j, k) ensures RefOk(fs1, j, k) { RefAt(fs, j, k); }
    forall b: nat | fs1.dstart <= b < |fs1.blocks| && fs1.used[b] ensures Held(fs1, b) {
      assert Held(fs, b);
      var j: nat, k: nat :| IsPointer(fs, j, k) && Ref(fs, j, k) == b;
      assert IsPointer(fs1, j, k);
    }
  }

  lemma PointerOf(o: nat, bn: nat)
    requires o < MAXFILE * BSIZE && bn < MAXFILE
    ensures o / BSIZE < MAXFILE && (Pointer(o / BSIZE) == Pointer(bn) <==> bn * BSIZE <= o < bn * BSIZE + BSIZE)
    ensures bn * BSIZE <= o < bn * BSIZE + BSIZE ==> o % BSIZE == o - bn * BSIZE
  {
  }

  lemma StoreByte(fs: Fs, i: nat, bn: nat, o: nat, bytes: seq<Byte>, j: nat, x: nat)
    requires Inv(fs) && i < |fs.inodes| && bn < MAXFILE && Has(fs, i, bn) && RefOk(fs, i, Pointer(bn)) && o + |bytes| <= BSIZE
    requires j < |fs.inodes| && x < MAXFILE * BSIZE
    ensures FileByte(Store(fs, Ref(fs, i, Pointer(bn)), o, bytes), j, x) ==
      if j == i && bn * BSIZE + o <= x < bn * BSIZE + o + |bytes| then bytes[x - (bn * BSIZE + o)] else FileByte(fs, j, x)
  {
    hide Ref;
    hide RefsOk;
    hide BitmapOk;
    hide Pointer;
    PointerOf(x, bn);
    PointerBound(x / BSIZE);
    PointerBound(bn);
    var fs1 := Store(fs, Ref(fs, i, Pointer(bn)), o, bytes);
    StoreRefs(fs, i, bn, fs1);
    assert IsPointer(fs, j, Pointer(x / BSIZE)) && IsPointer(fs, i, Pointer(bn));
  }

  lemma PointerBound(bn: nat)
    requires bn < MAXFILE
    ensures Pointer(bn) < NREFS && Pointer(bn) != NDIRECT
  {
  }

  // ---------------------------------------------------------------- the loops

  // How much of the rest goes into the block at off.
  function Piece(off: nat, n: nat): nat { Min(n, BSIZE - off % BSIZE) }

  /** writei's loop; src is what is left to write. */
  function WriteFrom(fs: Fs, i: nat, src: seq<Byte>, off: nat): Option<Fs>
    requires Inv(fs) && i < |fs.inodes|
    decreases |src|
  {
    if src == [] then Some(fs)
    else
      match Bmap(fs, i, off / BSIZE)
      case None => None
      case Some((fs1, a)) =>
        BmapOk(fs, i, off / BSIZE);
        var m := Piece(off, |src|);
        StoreOk(fs1, i, off / BSIZE, off % BSIZE, src[..m]);
        WriteFrom(Store(fs1, a, off % BSIZE, src[..m]), i, src[m..], off + m)
  }

  /** readi's loop: it maps the blocks it reads, and so may allocate. */
  function ReadFrom(fs: Fs, i: nat, off: nat, n: nat): Option<(Fs, seq<Byte>)>
    requires Inv(fs) && i < |fs.inodes|
    decreases n
  {
    if n == 0 then Some((fs, []))
    else
      match Bmap(fs, i, off / BSIZE)
      case None => None
      case Some((fs1, a)) =>
        BmapOk(fs, i, off / BSIZE);
        var m := Piece(off, n);
        match ReadFrom(fs1, i, off + m, n - m)
        case None => None
        case Some((fs2, rest)) => Some((fs2, fs1.blocks[a][off % BSIZE..off % BSIZE + m] + rest))
  }

  function Wraps(off: nat, n: nat): bool { (off + n) % UINT < off }

  /** writei: the file system and the return value; None is a panic. */
  function Writei(fs: Fs, i: nat, src: seq<Byte>, off: nat): Option<(Fs, int)>
    requires Inv(fs) && i < |fs.inodes| && |src| < UINT && off < UINT
  {
    if off > fs.inodes[i].size || Wraps(off, |src|) then Some((fs, -1))
    else
      var n := if off + |src| > MAXFILE * BSIZE then MAXFILE * BSIZE - off else |src|;
      match WriteFrom(fs, i, src[..n], off)
      case None => None
      case Some(fs1) =>
        WriteFromOk(fs, i, src[..n], off);
        if n > 0 && off + n > fs1.inodes[i].size then
          Some((Iupdate(fs1.(inodes := fs1.inodes[i := fs1.inodes[i].(size := off + n)]), i), n))
        else Some((fs1, n))
  }

  /** readi: the file system, the return value and the bytes. */
  function Readi(fs: Fs, i: nat, off: nat, n: nat): Option<(Fs, int, seq<Byte>)>
    requires Inv(fs) && i < |fs.inodes| && n < UINT && off < UINT
  {
    if off > fs.inodes[i].size || Wraps(off, n) then Some((fs, -1, []))
    else
      var n1 := if off + n > fs.inodes[i].size then fs.inodes[i].size - off else n;
      match ReadFrom(fs, i, off, n1)
      case None => None
      case Some((fs1, bytes)) => Some((fs1, n1, bytes))
  }

  // ---------------------------------------------------------------- writing

  // Nothing about the other files changes.
  ghost predicate OthersSame(fs: Fs, fs1: Fs, i: nat) {
    && Shape(fs) && Shape(fs1) && |fs1.inodes| == |fs.inodes|
    && (forall j: nat | j < |fs.inodes| && j != i :: fs1.inodes[j] == fs.inodes[j] && fs1.disk[j] == fs.disk[j])
    && (forall j: nat, c: nat | j < |fs.inodes| && j != i && c < MAXFILE :: Has(fs1, j, c) == Has(fs, j, c))
    && (forall j: nat, o: nat | j < |fs.inodes| && j != i && o < MAXFILE * BSIZE :: FileByte(fs1, j, o) == FileByte(fs, j, o))
  }

  /** fs1 is fs with src in file i at off, its blocks mapped. */
  ghost predicate Wrote(fs: Fs, fs1: Fs, i: nat, src: seq<Byte>, off: nat) {
    && Shape(fs) && Shape(fs1) && i < |fs.inodes| && |fs1.inodes| == |fs.inodes| && |fs1.blocks| == |fs.blocks|
    && OthersSame(fs, fs1, i) && fs1.disk == fs.disk && fs1.inodes[i].size == fs.inodes[i].size
    && (forall o: nat | o < MAXFILE * BSIZE ::
          FileByte(fs1, i, o) == if off <= o < off + |src| then src[o - off] else FileByte(fs, i, o))
    && (forall c: nat | c < MAXFILE :: Has(fs1, i, c) <==> Has(fs, i, c) || Touches(c, off, |src|))
    && ((forall c: nat | c < MAXFILE && Touches(c, off, |src|) :: Has(fs, i, c)) ==> fs1.inodes == fs.inodes)
  }

  // The range of n bytes at off has bytes in block c.
  predicate Touches(c: nat, off: nat, n: nat) { n > 0 && off / BSIZE <= c <= (off + n - 1) / BSIZE }

  lemma PieceArith(off: nat, n: nat)
    requires n > 0
    ensures 1 <= Piece(off, n) <= n && off % BSIZE + Piece(off, n) <= BSIZE
    ensures off / BSIZE * BSIZE + off % BSIZE == off
    ensures forall c: nat :: Touches(c, off, n) <==> c == off / BSIZE || Touches(c, off + Piece(off, n), n - Piece(off, n))
  {
    var m := Piece(off, n);
    if m < n {
      assert (off + m) % BSIZE == 0 && (off + m) / BSIZE == off / BSIZE + 1;
    } else {
      assert (off + n - 1) / BSIZE == off / BSIZE;
    }
  }

  // One turn of the loop.
  lemma WriteOne(fs: Fs, i: nat, src: seq<Byte>, off: nat)
    requires Inv(fs) && i < |fs.inodes| && src != [] && Bmap(fs, i, off / BSIZE).Some?
    ensures var (fs1, a) := Bmap(fs, i, off / BSIZE).value;
      && a < |fs1.blocks| && off % BSIZE + Piece(off, |src|) <= BSIZE && Piece(off, |src|) <= |src|
      && var fs2 := Store(fs1, a, off % BSIZE, src[..Piece(off, |src|)]);
      Inv(fs2) && Wrote(fs, fs2, i, src[..Piece(off, |src|)], off)
  {
    hide Ref;
    hide RefsOk;
    hide Distinct;
    hide BitmapOk;
    hide Bmap;
    hide FileByte;
    hide Store;
    var bn, m := off / BSIZE, Piece(off, |src|);
    PieceArith(off, |src|);
    BmapOk(fs, i, bn);
    var (fs1, a) := Bmap(fs, i, bn).value;
    StoreOk(fs1, i, bn, off % BSIZE, src[..m]);
    PieceTouches(off, m);
  }

  lemma PieceTouches(off: nat, m: nat)
    requires m > 0 && off % BSIZE + m <= BSIZE
    ensures forall c: nat :: Touches(c, off, m) <==> c == off / BSIZE
  {
    assert (off + m - 1) / BSIZE == off / BSIZE;
  }

  lemma WroteThen(fs: Fs, fs1: Fs, fs2: Fs, i: nat, src: seq<Byte>, off: nat, m: nat)
    requires src != [] && m == Piece(off, |src|) <= |src|
    requires Wrote(fs, fs1, i, src[..m], off) && Wrote(fs1, fs2, i, src[m..], off + m)
    ensures Wrote(fs, fs2, i, src, off)
  {
    hide Ref;
    hide FileByte;
    hide Has;
    hide Touches;
    PieceArith(off, |src|);
    PieceTouches(off, m);
  }

  lemma {:induction false} WriteFromOk(fs: Fs, i: nat, src: seq<Byte>, off: nat)
    requires Inv(fs) && i < |fs.inodes| && WriteFrom(fs, i, src, off).Some?
    ensures Inv(WriteFrom(fs, i, src, off).value) && Wrote(fs, WriteFrom(fs, i, src, off).value, i, src, off)
    decreases |src|
  {
    hide Ref;
    hide RefsOk;
    hide Distinct;
    hide BitmapOk;
    hide Bmap;
    hide Store;
    hide Wrote;
    if src == [] {
      WroteNothing(fs, i, off);
    } else {
      WriteOne(fs, i, src, off);
      var (fs1, a) := Bmap(fs, i, off / BSIZE).value;
      var m := Piece(off, |src|);
      PieceArith(off, |src|);
      var fs2 := Store(fs1, a, off % BSIZE, src[..m]);
      WroteShape(fs, fs2, i, src[..m], off);
      WriteFromOk(fs2, i, src[m..], off + m);
      WroteThen(fs, fs2, WriteFrom(fs, i, src, off).value, i, src, off, m);
    }
  }

  lemma WroteShape(fs: Fs, fs1: Fs, i: nat, src: seq<Byte>, off: nat)
    requires Wrote(fs, fs1, i, src, off)
    ensures |fs1.inodes| == |fs.inodes|
  {
  }

  lemma WroteNothing(fs: Fs, i: nat, off: nat)
    requires Inv(fs) && i < |fs.inodes|
    ensures Wrote(fs, fs, i, [], off)
  {
    hide Ref;
    hide FileByte;
  }

  /** The contents of file i. */
  ghost function Contents(fs: Fs, i: nat): (c: seq<Byte>)
    requires Shape(fs) && i < |fs.inodes|
    ensures |c| == fs.inodes[i].size
  {
    seq(fs.inodes[i].size, o requires 0 <= o < fs.inodes[i].size => FileByte(fs, i, o))
  }

  /** How much of n bytes at off writei takes: up to the greatest file size. */
  function Clipped(off: nat, n: nat): nat
    requires off <= MAXFILE * BSIZE
  {
    Min(n, MAXFILE * BSIZE - off)
  }

  // The size after n bytes at off.
  function NewSize(size: nat, off: nat, n: nat): nat { if n > 0 then Max(size, off + n) else size }

  lemma WraptAround(off: nat, n: nat)
    requires off < UINT && n < UINT
    ensures Wraps(off, n) <==> off + n >= UINT
  {
  }

  /** What writei does to the bytes: it fails, changing nothing, exactly beyond the end of the file
      or of 32 bits; otherwise the clipped bytes are at off, and every other byte of every file,
      and all about the other files, is as before. */
  lemma WriteiBytes(fs: Fs, i: nat, src: seq<Byte>, off: nat)
    requires Inv(fs) && i < |fs.inodes| && |src| < UINT && off < UINT && Writei(fs, i, src, off).Some?
    ensures var (fs1, r) := Writei(fs, i, src, off).value;
      && Inv(fs1) && |fs1.inodes| == |fs.inodes|
      && (r == -1 <==> off > fs.inodes[i].size || off + |src| >= UINT)
      && (r == -1 ==> fs1 == fs)
      && (r != -1 ==>
            && r == Clipped(off, |src|) && OthersSame(fs, fs1, i)
            && fs1.inodes[i].size == NewSize(fs.inodes[i].size, off, r)
            && forall o: nat | o < MAXFILE * BSIZE ::
                 FileByte(fs1, i, o) == if off <= o < off + r then src[o - off] else FileByte(fs, i, o))
  {
    hide Ref;
    hide RefsOk;
    hide Distinct;
    hide BitmapOk;
    hide FileByte;
    hide WriteFrom;
    WraptAround(off, |src|);
    if !(off > fs.inodes[i].size || Wraps(off, |src|)) {
      var n := Clipped(off, |src|);
      WriteFromOk(fs, i, src[..n], off);
      var fs1 := WriteFrom(fs, i, src[..n], off).value;
      if n > 0 && off + n > fs1.inodes[i].size { ResizeOk(fs1, i, off + n); }
    }
  }

  // A new size, copied to disk: no block changes hands.
  lemma ResizeOk(fs: Fs, i: nat, size: nat)
    requires Inv(fs) && i < |fs.inodes| && size <= MAXFILE * BSIZE
    ensures var fs1 := Iupdate(fs.(inodes := fs.inodes[i := fs.inodes[i].(size := size)]), i);
      && Inv(fs1) && OthersSame(fs, fs1, i) && fs1.inodes[i].size == size && fs1.disk[i] == fs1.inodes[i]
      && (forall j: nat, o: nat | j < |fs.inodes| && o < MAXFILE * BSIZE :: FileByte(fs1, j, o) == FileByte(fs, j, o))
      && (forall c: nat | c < MAXFILE :: Has(fs1, i, c) == Has(fs, i, c))
  {
    var fs1 := Iupdate(fs.(inodes := fs.inodes[i := fs.inodes[i].(size := size)]), i);
    forall j: nat, k: nat | IsPointer(fs, j, k) ensures Ref(fs1, j, k) == Ref(fs, j, k) {}
    ResizeInv(fs, fs1);
  }

  lemma ResizeInv(fs: Fs, fs1: Fs)
    requires Inv(fs) && Shape(fs1) && fs1 == fs.(inodes := fs1.inodes, disk := fs1.disk) && |fs1.inodes| == |fs.inodes|
    requires forall j: nat, k: nat | IsPointer(fs, j, k) :: Ref(fs1, j, k) == Ref(fs, j, k)
    ensures Inv(fs1)
  {
    hide Ref;
    hide Zero;
    forall j: nat, k: nat | IsPointer(fs1, j, k) ensures RefOk(fs1, j, k) { RefAt(fs, j, k); }
    forall b: nat | fs1.dstart <= b < |fs1.blocks| && fs1.used[b] ensures Held(fs1, b) {
      assert Held(fs, b);
      var j: nat, k: nat :| IsPointer(fs, j, k) && Ref(fs, j, k) == b;
      assert IsPointer(fs1, j, k);
    }
  }

  /** A file as a byte sequence: writei replaces or extends its contents at off by the clipped
      source, and leaves the contents of every other file. */
  lemma WriteiContents(fs: Fs, i: nat, src: seq<Byte>, off: nat, j: nat)
    requires Inv(fs) && i < |fs.inodes| && j < |fs.inodes| && |src| < UINT && off < UINT && Writei(fs, i, src, off).Some?
    requires off <= fs.inodes[i].size && off + |src| < UINT
    ensures var (fs1, r) := Writei(fs, i, src, off).value; var c := Contents(fs, i);
      && Inv(fs1) && |fs1.inodes| == |fs.inodes| && r == Clipped(off, |src|)
      && Contents(fs1, i) == c[..off] + src[..r] + (if off + r < |c| then c[off + r..] else [])
      && (j != i ==> Contents(fs1, j) == Contents(fs, j))
  {
    hide Ref;
    hide RefsOk;
    hide Distinct;
    hide BitmapOk;
    hide FileByte;
    hide Writei;
    WriteiBytes(fs, i, src, off);
  }

  // ---------------------------------------------------------------- reading

  lemma {:induction false} ReadFromOk(fs: Fs, i: nat, off: nat, n: nat)
    requires Inv(fs) && i < |fs.inodes| && off + n <= MAXFILE * BSIZE && ReadFrom(fs, i, off, n).Some?
    ensures var (fs1, bytes) := ReadFrom(fs, i, off, n).value;
      && Inv(fs1) && SameFiles(fs, fs1) && |bytes| == n
      && (forall x: nat | x < n :: bytes[x] == FileByte(fs, i, off + x))
      && ((forall c: nat | c < MAXFILE && Touches(c, off, n) :: Has(fs, i, c)) ==> fs1 == fs)
    decreases n
  {
    hide Ref;
    hide RefsOk;
    hide Distinct;
    hide BitmapOk;
    hide Bmap;
    hide Touches;
    if n > 0 {
      var bn, m := off / BSIZE, Piece(off, n);
      PieceArith(off, n);
      BmapOk(fs, i, bn);
      var (fs1, a) := Bmap(fs, i, bn).value;
      assert IsPointer(fs1, i, Pointer(bn));
      RefAt(fs1, i, Pointer(bn));
      ReadFromOk(fs1, i, off + m, n - m);
      var piece := fs1.blocks[a][off % BSIZE..off % BSIZE + m];
      forall x: nat | x < m ensures piece[x] == FileByte(fs, i, off + x) {
        PointerOf(off + x, bn);
        assert FileByte(fs1, i, off + x) == FileByte(fs, i, off + x);
      }
    } else {
      SameFilesSelf(fs);
    }
  }

  lemma SameFilesSelf(fs: Fs)
    requires Shape(fs)
    ensures SameFiles(fs, fs)
  {
  }

  /** Every block of the file up to its size is there, and none beyond. */
  ghost predicate NoHoles(fs: Fs, i: nat)
    requires Shape(fs) && i < |fs.inodes|
  {
    forall c: nat | c < MAXFILE :: Has(fs, i, c) <==> c * BSIZE < fs.inodes[i].size
  }

  /** readi fails exactly as writei does; otherwise it returns the slice of the contents clipped to
      the size, no file reads differently after, and without holes nothing changes at all. */
  lemma ReadiContents(fs: Fs, i: nat, off: nat, n: nat)
    requires Inv(fs) && i < |fs.inodes| && n < UINT && off < UINT && Readi(fs, i, off, n).Some?
    ensures var (fs1, r, bytes) := Readi(fs, i, off, n).value;
      && Inv(fs1) && (r == -1 <==> off > fs.inodes[i].size || off + n >= UINT) && (r == -1 ==> fs1 == fs && bytes == [])
      && (r != -1 ==>
            && r == Min(n, fs.inodes[i].size - off) && bytes == Contents(fs, i)[off..off + r] && SameFiles(fs, fs1)
            && (NoHoles(fs, i) ==> fs1 == fs))
  {
    hide Ref;
    hide RefsOk;
    hide Distinct;
    hide BitmapOk;
    hide FileByte;
    hide ReadFrom;
    WraptAround(off, n);
    if !(off > fs.inodes[i].size || Wraps(off, n)) {
      var n1 := Min(n, fs.inodes[i].size - off);
      ReadFromOk(fs, i, off, n1);
      if NoHoles(fs, i) { TouchesBelow(off, n1, fs.inodes[i].size); }
    }
  }

  lemma TouchesBelow(off: nat, n: nat, size: nat)
    requires off + n <= size
    ensures forall c: nat | Touches(c, off, n) :: c * BSIZE < size
  {
  }

  // Reading blocks the file has needs no fresh block.
  lemma {:induction false} ReadFromSome(fs: Fs, i: nat, off: nat, n: nat)
    requires Inv(fs) && i < |fs.inodes| && off + n <= MAXFILE * BSIZE
    requires forall c: nat | c < MAXFILE && Touches(c, off, n) :: Has(fs, i, c)
    ensures ReadFrom(fs, i, off, n).Some?
    decreases n
  {
    hide RefsOk;
    hide Distinct;
    hide BitmapOk;
    hide FileByte;
    hide Word;
    if n > 0 {
      PieceArith(off, n);
      var bn := off / BSIZE;
      assert Touches(bn, off, n) && Has(fs, i, bn);
      assert Bmap(fs, i, bn).Some? && Bmap(fs, i, bn).value.0 == fs by { assert RefOk(fs, i, NDIRECT) by { RefAt(fs, i, NDIRECT); } }
      ReadFromSome(fs, i, off + Piece(off, n), n - Piece(off, n));
    }
  }

  lemma WriteiHas(fs: Fs, i: nat, src: seq<Byte>, off: nat)
    requires Inv(fs) && i < |fs.inodes| && |src| < UINT && off <= fs.inodes[i].size && off + |src| < UINT
    requires off + |src| <= MAXFILE * BSIZE && Writei(fs, i, src, off).Some?
    ensures var fs1 := Writei(fs, i, src, off).value.0;
      && Inv(fs1) && |fs1.inodes| == |fs.inodes| && forall c: nat | c < MAXFILE && Touches(c, off, |src|) :: Has(fs1, i, c)
  {
    hide Ref;
    hide RefsOk;
    hide Distinct;
    hide BitmapOk;
    hide FileByte;
    hide WriteFrom;
    WraptAround(off, |src|);
    assert src[..|src|] == src;
    WriteFromOk(fs, i, src, off);
    var fs1 := WriteFrom(fs, i, src, off).value;
    if |src| > 0 && off + |src| > fs1.inodes[i].size { ResizeOk(fs1, i, off + |src|); }
  }

  /** What was written is read back. */
  lemma WriteThenRead(fs: Fs, i: nat, src: seq<Byte>, off: nat)
    requires Inv(fs) && i < |fs.inodes| && |src| < UINT && off <= fs.inodes[i].size && off + |src| < UINT
    requires off + |src| <= MAXFILE * BSIZE && Writei(fs, i, src, off).Some?
    ensures var fs1 := Writei(fs, i, src, off).value.0;
      && Inv(fs1) && i < |fs1.inodes|
      && Readi(fs1, i, off, |src|).Some? && Readi(fs1, i, off, |src|).value.2 == src
  {
    hide Ref;
    hide RefsOk;
    hide Distinct;
    hide BitmapOk;
    hide FileByte;
    hide Writei;
    hide ReadFrom;
    hide Has;
    WriteiContents(fs, i, src, off, i);
    WriteiHas(fs, i, src, off);
    var fs1 := Writei(fs, i, src, off).value.0;
    WraptAround(off, |src|);
    WriteiBytes(fs, i, src, off);
    ReadFromSome(fs1, i, off, |src|);
    ReadiContents(fs1, i, off, |src|);
  }

  /** Without holes readi never needs a block, so it never panics. */
  lemma ReadiSucceeds(fs: Fs, i: nat, off: nat, n: nat)
    requires Inv(fs) && i < |fs.inodes| && n < UINT && off < UINT && NoHoles(fs, i)
    ensures Readi(fs, i, off, n).Some?
  {
    hide Ref;
    hide RefsOk;
    hide Distinct;
    hide BitmapOk;
    hide ReadFrom;
    WraptAround(off, n);
    if !(off > fs.inodes[i].size || Wraps(off, n)) {
      var n1 := Min(n, fs.inodes[i].size - off);
      TouchesBelow(off, n1, fs.inodes[i].size);
      ReadFromSome(fs, i, off, n1);
    }
  }

  /** A disk with empty files only, as mkfs would leave it: zeroed data blocks, the blocks before
      them marked. */
  lemma EmptyDisk(fs: Fs)
    requires Shape(fs)
    requires forall i: nat, k: nat | i < |fs.inodes| && k <= NDIRECT :: fs.inodes[i].addrs[k] == 0
    requires forall b: nat | b < |fs.blocks| :: fs.used[b] == (b < fs.dstart) && fs.blocks[b] == Zero()
    ensures Inv(fs)
  {
    forall i: nat, k: nat | IsPointer(fs, i, k) ensures Ref(fs, i, k) == 0 {}
  }

  // ---------------------------------------------------------------- the copy on disk

  /** Without holes, writei leaves none, and the inode on disk the same as in memory: nothing is
      lost when it leaves the cache. */
  lemma WriteiDisk(fs: Fs, i: nat, src: seq<Byte>, off: nat)
    requires Inv(fs) && i < |fs.inodes| && |src| < UINT && off < UINT && Writei(fs, i, src, off).Some?
    requires NoHoles(fs, i) && fs.disk[i] == fs.inodes[i]
    ensures var fs1 := Writei(fs, i, src, off).value.0;
      Inv(fs1) && |fs1.inodes| == |fs.inodes| && NoHoles(fs1, i) && fs1.disk[i] == fs1.inodes[i]
  {
    hide Ref;
    hide RefsOk;
    hide Distinct;
    hide BitmapOk;
    hide FileByte;
    hide WriteFrom;
    WriteiBytes(fs, i, src, off);
    if !(off > fs.inodes[i].size || Wraps(off, |src|)) {
      var n, size := Clipped(off, |src|), fs.inodes[i].size;
      WriteFromOk(fs, i, src[..n], off);
      var fs1 := WriteFrom(fs, i, src[..n], off).value;
      TouchesUpTo(off, n, size);
      if n > 0 && off + n > size { ResizeOk(fs1, i, off + n); } else { TouchesBelow(off, n, size); }
    }
  }

  lemma TouchesUpTo(off: nat, n: nat, size: nat)
    requires off <= size
    ensures forall c: nat :: c * BSIZE < NewSize(size, off, n) <==> c * BSIZE < size || Touches(c, off, n)
  {
    forall c: nat ensures c * BSIZE < NewSize(size, off, n) <==> c * BSIZE < size || Touches(c, off, n) {
      if n > 0 {
        assert c <= (off + n - 1) / BSIZE <==> c * BSIZE <= off + n - 1;
        assert c * BSIZE >= off ==> c >= off / BSIZE;
      }
    }
  }
}
