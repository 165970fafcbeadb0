/** fs.c of P5_XV6_CoW_Fork/kernel as it changes the disk and the inodes in place; every method
    does to the arrays what the functions of FsBlocks, FsTrunc and FsFiles do to values.  A
    false ok is a panic, or the use of a block beyond the disk. */
module FsKernel {
  import opened Wrappers
  import opened FsBlocks
  import opened FsTrunc
  import opened FsFiles

  class FileSystem {
    const used: array<bool>
    const blocks: array<Block>
    const dstart: nat
    const inodes: array<Inode>
    const disk: array<Inode>

    ghost predicate Arrays()
      reads this
    {
      used.Length == BitmapBits(blocks.Length) && disk.Length == inodes.Length && disk != inodes
    }

    ghost function View(): Fs
      reads this, used, blocks, inodes, disk
    {
      Fs(used[..], blocks[..], dstart, inodes[..], disk[..])
    }

    method Balloc() returns (ok: bool, b: nat)
      requires Arrays()
      modifies used
      ensures ok == FsBlocks.Balloc(old(View())).Some?
      ensures ok ==> FsBlocks.Balloc(old(View())) == Some((View(), b))
      ensures !ok ==> View() == old(View())
    {
      ghost var fs := View();
      var first := 0;
      while first < blocks.Length
        invariant 0 <= first <= used.Length && first % BPB == 0 && View() == fs && FirstFree(fs, 0) == FirstFree(fs, first)
        decreases blocks.Length - first
      {
        NextBits(blocks.Length, first);
        var bi := 0;
        while bi < BPB
          invariant 0 <= bi <= BPB && View() == fs && FirstFree(fs, 0) == FirstFree(fs, first + bi)
        {
          if !used[first + bi] {
            used[first + bi] := true;
            return true, first + bi;
          }
          bi := bi + 1;
        }
        first := first + BPB;
      }
      LastBits(blocks.Length, first);
      return false, 0;
    }

    method Bfree(b: nat) returns (ok: bool)
      requires Arrays() && b < blocks.Length
      modifies used, blocks
      ensures ok == FsBlocks.Bfree(old(View()), b).Some?
      ensures ok ==> FsBlocks.Bfree(old(View()), b) == Some(View())
    {
      blocks[b] := Zero();
      if !used[b] { return false; }
      used[b] := false;
      return true;
    }

    // ip->addrs[k] = b.
    method SetAddr(i: nat, k: nat, b: nat)
      requires Arrays() && i < inodes.Length && k < |inodes[i].addrs|
      modifies inodes
      ensures View() == FsBlocks.SetAddr(old(View()), i, k, b)
    {
      inodes[i] := inodes[i].(addrs := inodes[i].addrs[k := b]);
    }

    method Bmap(i: nat, bn: nat) returns (ok: bool, addr: nat)
      requires Arrays() && Inv(View()) && i < inodes.Length
      modifies used, blocks, inodes
      ensures ok == FsBlocks.Bmap(old(View()), i, bn).Some?
      ensures ok ==> FsBlocks.Bmap(old(View()), i, bn) == Some((View(), addr))
    {
      hide RefsOk;
      hide Distinct;
      hide BitmapOk;
      hide FirstFree;
      hide Word;
      hide SetWord;
      ghost var fs := View();
      if bn < NDIRECT {
        addr := inodes[i].addrs[bn];
        ok := true;
        if addr == 0 {
          ok, addr := Balloc();
          if ok { SetAddr(i, bn, addr); }
          ok := ok && addr < blocks.Length;
        }
        return;
      }
      var en := bn - NDIRECT;
      if en >= NINDIRECT { return false, 0; }
      var a: nat := inodes[i].addrs[NDIRECT];
      ok := true;
      if a == 0 {
        ok, a := Balloc();
        if !ok { return false, 0; }
        SetAddr(i, NDIRECT, a);
        if a >= blocks.Length { return false, 0; }
      }
      ghost var m := View();
      assert MapAddr(fs, i, NDIRECT) == Some((m, a));
      MapAddrOk(fs, i, NDIRECT);
      addr := Word(blocks[a], en);
      if addr == 0 {
        ok, addr := Balloc();
        ok := ok && addr < blocks.Length;
        if ok { blocks[a] := SetWord(blocks[a], en, addr); }
      }
    }

    method Iupdate(i: nat)
      requires Arrays() && i < inodes.Length
      modifies disk
      ensures View() == FsTrunc.Iupdate(old(View()), i)
    {
      disk[i] := inodes[i];
    }

    /** The loop over the direct blocks. */
    method TruncDirect(i: nat) returns (ok: bool)
      requires Arrays() && i < inodes.Length && |inodes[i].addrs| == NDIRECT + 1
      requires forall k | 0 <= k < NDIRECT :: inodes[i].addrs[k] < blocks.Length
      modifies used, blocks, inodes
      ensures ok == FreeDirect(old(View()), i, 0).Some?
      ensures ok ==> FreeDirect(old(View()), i, 0) == Some(View())
    {
      var k := 0;
      while k < NDIRECT
        invariant 0 <= k <= NDIRECT && |inodes[i].addrs| == NDIRECT + 1
        invariant FreeDirect(old(View()), i, 0) == FreeDirect(View(), i, k)
        invariant forall l | k <= l < NDIRECT :: inodes[i].addrs[l] < blocks.Length
      {
        if inodes[i].addrs[k] != 0 {
          ok := Bfree(inodes[i].addrs[k]);
          if !ok { return; }
          SetAddr(i, k, 0);
        }
        k := k + 1;
      }
      return true;
    }

    /** The indirect block: its entries, as read before any is freed, then itself. */
    method TruncIndirect(i: nat) returns (ok: bool)
      requires Arrays() && i < inodes.Length && |inodes[i].addrs| == NDIRECT + 1 && inodes[i].addrs[NDIRECT] < blocks.Length
      requires inodes[i].addrs[NDIRECT] != 0 ==>
        forall j: nat | j < NINDIRECT :: Word(blocks[inodes[i].addrs[NDIRECT]], j) < blocks.Length
      modifies used, blocks, inodes
      ensures ok == FreeIndirect(old(View()), i).Some?
      ensures ok ==> FreeIndirect(old(View()), i) == Some(View())
    {
      hide Word;
      hide Zero;
      hide BitmapBits;
      hide FreeEntries;
      hide FsBlocks.Bfree;
      ok := true;
      var b := inodes[i].addrs[NDIRECT];
      if b != 0 {
        var a := blocks[b];
        var j := 0;
        while j < NINDIRECT
          invariant 0 <= j <= NINDIRECT && inodes[..] == old(inodes[..])
          invariant FreeEntries(old(View()), a, 0) == FreeEntries(View(), a, j)
        {
          EntryStep(View(), a, j);
          if Word(a, j) != 0 {
            ok := Bfree(Word(a, j));
            if !ok { return; }
          }
          j := j + 1;
        }
        EntryStep(View(), a, NINDIRECT);
        ok := Bfree(b);
        if !ok { return; }
        SetAddr(i, NDIRECT, 0);
      }
    }

    /** itrunc never panics on a sound file system. */
    method Itrunc(i: nat) returns (ok: bool)
      requires Arrays() && Inv(View()) && i < inodes.Length
      modifies used, blocks, inodes, disk
      ensures ok && FsTrunc.Itrunc(old(View()), i) == Some(View())
    {
      hide RefsOk;
      hide Distinct;
      hide BitmapOk;
      hide FreeDirect;
      hide FreeIndirect;
      hide Dropped;
      hide Truncated;
      ghost var fs := View();
      forall k: nat | IsPointer(fs, i, k) ensures RefOk(fs, i, k) { RefAt(fs, i, k); }
      forall k: nat | k < NDIRECT ensures inodes[i].addrs[k] < blocks.Length { assert IsPointer(fs, i, k); }
      NothingDropped(fs, i);
      DirectDropped(fs, fs, i, 0);
      ItruncFreesExactly(fs, i);
      ok := TruncDirect(i);
      EntriesInRange(fs, View(), i);
      ok := TruncIndirect(i);
      inodes[i] := inodes[i].(size := 0);
      Iupdate(i);
    }

    /** readi's loop. */
    method ReadAll(i: nat, off: nat, n: nat) returns (ok: bool, dst: seq<Byte>)
      requires Arrays() && Inv(View()) && i < inodes.Length
      modifies used, blocks, inodes
      ensures ok == ReadFrom(old(View()), i, off, n).Some?
      ensures ok ==> ReadFrom(old(View()), i, off, n) == Some((View(), dst))
    {
      hide RefsOk;
      hide Distinct;
      hide BitmapOk;
      hide ReadFrom;
      hide FsBlocks.Bmap;
      ghost var fs := View();
      var tot, o: nat := 0, off;
      dst := [];
      PrependNothing(ReadFrom(fs, i, off, n));
      while tot < n
        invariant tot <= n && Inv(View())
        invariant ReadFrom(fs, i, off, n) == Prepend(dst, ReadFrom(View(), i, o, n - tot))
      {
        ghost var m1, sofar := View(), dst;
        ReadTurn(m1, i, o, n - tot, sofar);
        var a;
        ok, a := Bmap(i, o / BSIZE);
        if !ok { return; }
        var m := Piece(o, n - tot);
        dst := dst + blocks[a][o % BSIZE..o % BSIZE + m];
        tot := tot + m;
        o := o + m;
      }
      ok := true;
      ReadEnd(View(), i, o);
      assert dst + [] == dst;
    }

    /** readi for files. */
    method Readi(i: nat, off: nat, n: nat) returns (ok: bool, r: int, dst: seq<Byte>)
      requires Arrays() && Inv(View()) && i < inodes.Length && n < UINT && off < UINT
      modifies used, blocks, inodes
      ensures ok == FsFiles.Readi(old(View()), i, off, n).Some?
      ensures ok ==> FsFiles.Readi(old(View()), i, off, n) == Some((View(), r, dst))
    {
      hide ReadFrom;
      if off > inodes[i].size || (off + n) % UINT < off { return true, -1, []; }
      var n1 := if off + n > inodes[i].size then inodes[i].size - off else n;
      ok, dst := ReadAll(i, off, n1);
      r := n1;
    }

    /** writei's loop. */
    method WriteAll(i: nat, src: seq<Byte>, off: nat) returns (ok: bool)
      requires Arrays() && Inv(View()) && i < inodes.Length
      modifies used, blocks, inodes
      ensures ok == WriteFrom(old(View()), i, src, off).Some?
      ensures ok ==> WriteFrom(old(View()), i, src, off) == Some(View())
      ensures disk[..] == old(disk[..])
    {
      hide RefsOk;
      hide Distinct;
      hide BitmapOk;
      hide WriteFrom;
      hide FsBlocks.Bmap;
      ghost var fs := View();
      var tot, o: nat := 0, off;
      assert src[0..] == src;
      while tot < |src|
        invariant tot <= |src| && Inv(View()) && disk[..] == old(disk[..])
        invariant WriteFrom(fs, i, src, off) == WriteFrom(View(), i, src[tot..], o)
      {
        WriteTurn(View(), i, src[tot..], o);
        var a;
        ok, a := Bmap(i, o / BSIZE);
        if !ok { return; }
        ghost var m1 := View();
        var m := Piece(o, |src| - tot);
        assert src[tot..][..m] == src[tot..tot + m] && src[tot..][m..] == src[tot + m..];
        var b: seq<Byte> := blocks[a];
        blocks[a] := b[..o % BSIZE] + src[tot..tot + m] + b[o % BSIZE + m..];
        assert View() == Store(m1, a, o % BSIZE, src[tot..tot + m]);
        tot := tot + m;
        o := o + m;
      }
      ok := true;
      assert src[tot..] == [];
      WriteEnd(View(), i, o);
    }

    /** writei for files. */
    method Writei(i: nat, src: seq<Byte>, off: nat) returns (ok: bool, r: int)
      requires Arrays() && Inv(View()) && i < inodes.Length && |src| < UINT && off < UINT
      modifies used, blocks, inodes, disk
      ensures ok == FsFiles.Writei(old(View()), i, src, off).Some?
      ensures ok ==> FsFiles.Writei(old(View()), i, src, off) == Some((View(), r))
    {
      hide WriteFrom;
      hide RefsOk;
      hide Distinct;
      hide BitmapOk;
      hide FileByte;
      ghost var fs := View();
      if off > inodes[i].size || (off + |src|) % UINT < off { return true, -1; }
      var n := if off + |src| > MAXFILE * BSIZE then MAXFILE * BSIZE - off else |src|;
      r := n;
      ok := WriteAll(i, src[..n], off);
      if !ok { return; }
      WriteFromOk(fs, i, src[..n], off);
      if n > 0 && off + n > inodes[i].size {
        inodes[i] := inodes[i].(size := off + n);
        Iupdate(i);
      }
    }
  }

  // One turn of writei's loop.
  lemma WriteTurn(fs: Fs, i: nat, src: seq<Byte>, off: nat)
    requires Inv(fs) && i < |fs.inodes| && src != []
    ensures 1 <= Piece(off, |src|) <= |src| && off % BSIZE + Piece(off, |src|) <= BSIZE
    ensures match Bmap(fs, i, off / BSIZE)
      case None => WriteFrom(fs, i, src, off).None?
      case Some((fs1, a)) =>
        && a < |fs1.blocks| && |fs1.inodes| == |fs.inodes| && fs1.disk == fs.disk
        && var fs2 := Store(fs1, a, off % BSIZE, src[..Piece(off, |src|)]);
        Inv(fs2) && |fs2.inodes| == |fs.inodes| && WriteFrom(fs, i, src, off) == WriteFrom(fs2, i, src[Piece(off, |src|)..], off + Piece(off, |src|))
  {
    hide RefsOk;
    hide Distinct;
    hide BitmapOk;
    hide Bmap;
    hide FileByte;
    PieceArith(off, |src|);
    if Bmap(fs, i, off / BSIZE).Some? {
      BmapOk(fs, i, off / BSIZE);
      StoreOk(Bmap(fs, i, off / BSIZE).value.0, i, off / BSIZE, off % BSIZE, src[..Piece(off, |src|)]);
    }
  }

  lemma WriteEnd(fs: Fs, i: nat, off: nat)
    requires Inv(fs) && i < |fs.inodes|
    ensures WriteFrom(fs, i, [], off) == Some(fs)
  {
  }

  // One turn of readi's loop.
  lemma ReadTurn(fs: Fs, i: nat, off: nat, n: nat, head: seq<Byte>)
    requires Inv(fs) && i < |fs.inodes| && n > 0
    ensures 1 <= Piece(off, n) <= n && off % BSIZE + Piece(off, n) <= BSIZE
    ensures match Bmap(fs, i, off / BSIZE)
      case None => ReadFrom(fs, i, off, n).None?
      case Some((fs1, a)) =>
        && a < |fs1.blocks| && |fs1.inodes| == |fs.inodes| && Inv(fs1)
        && var m := Piece(off, n);
        Prepend(head, ReadFrom(fs, i, off, n)) == Prepend(head + fs1.blocks[a][off % BSIZE..off % BSIZE + m], ReadFrom(fs1, i, off + m, n - m))
  {
    hide RefsOk;
    hide Distinct;
    hide BitmapOk;
    hide Bmap;
    hide FileByte;
    PieceArith(off, n);
    if Bmap(fs, i, off / BSIZE).Some? {
      BmapOk(fs, i, off / BSIZE);
      var (fs1, a) := Bmap(fs, i, off / BSIZE).value;
      var m := Piece(off, n);
      var piece := fs1.blocks[a][off % BSIZE..off % BSIZE + m];
      var r := ReadFrom(fs1, i, off + m, n - m);
      if r.Some? { assert head + (piece + r.value.1) == head + piece + r.value.1; }
    }
  }

  lemma ReadEnd(fs: Fs, i: nat, off: nat)
    requires Inv(fs) && i < |fs.inodes|
    ensures ReadFrom(fs, i, off, 0) == Some((fs, []))
  {
  }

  lemma PrependNothing(r: Option<(Fs, seq<Byte>)>)
    ensures Prepend([], r) == r
  {
    if r.Some? { assert [] + r.value.1 == r.value.1; }
  }

  function Prepend(head: seq<Byte>, r: Option<(Fs, seq<Byte>)>): Option<(Fs, seq<Byte>)> {
    match r
    case None => None
    case Some((fs, bytes)) => Some((fs, head + bytes))
  }

  lemma EntriesInRange(fs: Fs, fs1: Fs, i: nat)
    requires Inv(fs) && Dropped(fs, fs1, i, Below(NDIRECT))
    ensures var b := fs1.inodes[i].addrs[NDIRECT];
      && b < |fs1.blocks|
      && (b != 0 ==> forall j: nat | j < NINDIRECT :: Word(fs1.blocks[b], j) < |fs1.blocks|)
  {
    hide Below;
    hide Word;
    RefAt(fs, i, NDIRECT);
    if fs.inodes[i].addrs[NDIRECT] != 0 {
      EntriesAsRead(fs, fs1, i);
      forall j: nat | j < NINDIRECT ensures Word(fs1.blocks[fs1.inodes[i].addrs[NDIRECT]], j) < |fs1.blocks| {
        RefAt(fs, i, NDIRECT + 1 + j);
      }
    }
  }

  lemma EntryStep(fs: Fs, a: Block, j: nat)
    requires j <= NINDIRECT
    ensures FreeEntries(fs, a, j) ==
      if j == NINDIRECT then Some(fs)
      else if Word(a, j) == 0 then FreeEntries(fs, a, j + 1)
      else match FsBlocks.Bfree(fs, Word(a, j)) case None => None case Some(fs1) => FreeEntries(fs1, a, j + 1)
  {
  }

  // A whole bitmap block is there for every block of the disk ..
  lemma NextBits(size: nat, first: nat)
    requires first < size && first % BPB == 0
    ensures first + BPB <= BitmapBits(size)
  {
  }

  // .. and none beyond.
  lemma LastBits(size: nat, first: nat)
    requires size <= first <= BitmapBits(size) && first % BPB == 0
    ensures first == BitmapBits(size)
  {
  }
}
