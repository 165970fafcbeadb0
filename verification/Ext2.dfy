/** The file recovery of P7_File_Systems/runscan.c: the three loops over direct, indirect and
    double-indirect pointers copy out exactly the first i_size bytes of the file. */
module Ext2 {
  const UINT: nat := 0x1_0000_0000
  const NDIRECT: nat := 12

  type Byte = x: int | 0 <= x < 256

  /** A disk image with blocks of bs bytes. */
  datatype Image = Image(bytes: seq<Byte>, bs: nat)

  // The block size is 1024 shifted left, so it divides 2^32.
  predicate Ok(d: Image) { 4 <= d.bs < UINT && d.bs % 4 == 0 && UINT % d.bs == 0 }

  predicate OnDisk(d: Image, b: nat) { b * d.bs + d.bs <= |d.bytes| }

  /** On the image, and within the 4 GiB that 32-bit offsets reach. */
  predicate InReach(d: Image, b: nat) { OnDisk(d, b) && b * d.bs + d.bs <= UINT }

  /** The contents of block b. */
  function Data(d: Image, b: nat): (r: seq<Byte>)
    ensures |r| == d.bs
  {
    if OnDisk(d, b) then d.bytes[b * d.bs..b * d.bs + d.bs] else seq(d.bs, i => 0)
  }

  /** lseek and read: BLOCK_OFFSET is a 32-bit product, and a read stops at the end of the image. */
  function Read(d: Image, b: nat, buffer: seq<Byte>): (r: seq<Byte>)
    requires |buffer| == d.bs
    ensures |r| == d.bs
  {
    var off := b * d.bs % UINT;
    if off + d.bs <= |d.bytes| then d.bytes[off..off + d.bs]
    else if off < |d.bytes| then d.bytes[off..] + buffer[|d.bytes| - off..]
    else buffer
  }

  lemma ReadIsData(d: Image, b: nat, buffer: seq<Byte>)
    requires d.bs >= 1 && InReach(d, b) && |buffer| == d.bs
    ensures Read(d, b, buffer) == Data(d, b)
  {
    assert b * d.bs % UINT == b * d.bs;
  }

  /** With q blocks to 4 GiB, a block beyond is taken for the one a multiple of q before it. */
  lemma FarBlocksAlias(d: Image, q: nat, n: nat, c: nat, buffer: seq<Byte>)
    requires q * d.bs == UINT && c < q && |buffer| == d.bs
    ensures Read(d, n * q + c, buffer) == Read(d, c, buffer)
    ensures OnDisk(d, c) ==> Read(d, n * q + c, buffer) == Data(d, c)
  {
    hide Data;
    FarOffset(d.bs, q, n, c);
    FarOffset(d.bs, q, 0, c);
    if OnDisk(d, c) { ReadIsData(d, c, buffer); }
  }

  lemma FarOffset(bs: nat, q: nat, n: nat, c: nat)
    requires q * bs == UINT && c < q
    ensures (n * q + c) * bs % UINT == c * bs && c * bs + bs <= UINT
  {
    assert (n * q + c) * bs == n * (q * bs) + c * bs;
    MulMono(c + 1, q, bs);
    assert (c + 1) * bs == c * bs + bs;
    WrapIs(n, c * bs);
  }

  lemma WrapIs(n: nat, r: nat)
    requires r < UINT
    ensures (n * UINT + r) % UINT == r
  {
  }

  // Pointers in a block.
  function Per(d: Image): nat { d.bs / 4 }

  function Word(b: seq<Byte>, j: nat): nat
    requires 4 * j + 3 < |b|
  {
    var b0: int, b1: int, b2: int, b3: int := b[4 * j], b[4 * j + 1], b[4 * j + 2], b[4 * j + 3];
    b0 + 0x100 * b1 + 0x1_0000 * b2 + 0x100_0000 * b3
  }

  /** The bytes of a word are in the block, the low one first. */
  lemma WordBytes(b: seq<Byte>, j: nat)
    requires 4 * j + 3 < |b|
    ensures var w := Word(b, j);
      b[4 * j] == w % 256 && b[4 * j + 1] == w / 256 % 256 && b[4 * j + 2] == w / 256 / 256 % 256 && b[4 * j + 3] == w / 256 / 256 / 256
  {
    var b1: int, b2: int, b3: int := b[4 * j + 1], b[4 * j + 2], b[4 * j + 3];
    Digit(b[4 * j], b1 + 256 * (b2 + 256 * b3));
    Digit(b[4 * j + 1], b2 + 256 * b3);
    Digit(b[4 * j + 2], b3);
  }

  lemma Digit(d: Byte, rest: nat)
    ensures (d + 256 * rest) % 256 == d && (d + 256 * rest) / 256 == rest
  {
  }

  function Words(b: seq<Byte>): (r: seq<nat>)
    ensures |r| == |b| / 4
  {
    seq(|b| / 4, j requires 0 <= j < |b| / 4 => Word(b, j))
  }

  // ---------------------------------------------------------------- the file

  /** The blocks that a list of indirect blocks points to, in order. */
  function Through(d: Image, inds: seq<nat>): seq<nat>
  {
    if inds == [] then [] else Words(Data(d, inds[0])) + Through(d, inds[1..])
  }

  /** The file's blocks in order, from the inode's i_block. */
  function Blocks(d: Image, iblock: seq<nat>): seq<nat>
    requires |iblock| == 15
  {
    iblock[..NDIRECT] + (Words(Data(d, iblock[12])) + Through(d, Words(Data(d, iblock[13]))))
  }

  /** The nth-block map. */
  function NthBlock(d: Image, iblock: seq<nat>, n: nat): nat
    requires |iblock| == 15 && Per(d) >= 1 && n < NDIRECT + Per(d) + Per(d) * Per(d)
  {
    var p := Per(d);
    if n < NDIRECT then iblock[n]
    else if n - NDIRECT < p then Words(Data(d, iblock[12]))[n - NDIRECT]
    else
      var m := n - NDIRECT - p;
      DivBelow(m, p);
      Words(Data(d, Words(Data(d, iblock[13]))[m / p]))[m % p]
  }

  lemma DivBelow(m: nat, p: nat)
    requires p >= 1 && m < p * p
    ensures m / p < p && m == p * (m / p) + m % p
  {
    assert m / p * p <= m;
    MulLess(m / p, p, p);
  }

  lemma MulLess(a: nat, b: nat, p: nat)
    requires a * p < b * p
    ensures a < b
  {
    if a >= b { MulMono(b, a, p); }
  }

  lemma MulMono(a: nat, b: nat, p: nat)
    requires a <= b
    ensures a * p <= b * p
  {
    assert b * p == a * p + (b - a) * p;
  }

  lemma {:induction false} ThroughNth(d: Image, inds: seq<nat>, q: nat, r: nat)
    requires q < |inds| && r < Per(d)
    ensures |Through(d, inds)| == Span(|inds|, Per(d))
    ensures Span(q, Per(d)) + r < Span(|inds|, Per(d)) && Through(d, inds)[Span(q, Per(d)) + r] == Words(Data(d, inds[q]))[r]
    decreases |inds|
  {
    hide Data;
    hide Word;
    ThroughLength(d, inds);
    ThroughLength(d, inds[1..]);
    if q > 0 { ThroughNth(d, inds[1..], q - 1, r); }
  }

  lemma {:induction false} ThroughLength(d: Image, inds: seq<nat>)
    ensures |Through(d, inds)| == Span(|inds|, Per(d))
    decreases |inds|
  {
    hide Data;
    hide Word;
    if inds != [] { ThroughLength(d, inds[1..]); }
  }

  /** The list of blocks is the nth-block map. */
  lemma BlocksNth(d: Image, iblock: seq<nat>, n: nat)
    requires |iblock| == 15 && Per(d) >= 1 && n < NDIRECT + Per(d) + Per(d) * Per(d)
    ensures |Blocks(d, iblock)| == NDIRECT + Per(d) + Per(d) * Per(d) && Blocks(d, iblock)[n] == NthBlock(d, iblock, n)
  {
    hide Word;
    hide Data;
    var p, outer := Per(d), Words(Data(d, iblock[13]));
    ThroughLength(d, outer);
    SpanIs(p, p);
    if n >= NDIRECT + p {
      var m := n - NDIRECT - p;
      DivBelow(m, p);
      ThroughNth(d, outer, m / p, m % p);
      SpanIs(m / p, p);
    }
  }

  /** The first n bytes of a list of blocks, or all if they are fewer. */
  function Bytes(d: Image, blocks: seq<nat>, n: nat): seq<Byte>
    decreases |blocks|
  {
    if blocks == [] || n == 0 then []
    else if n <= d.bs then Data(d, blocks[0])[..n]
    else Data(d, blocks[0]) + Bytes(d, blocks[1..], n - d.bs)
  }

  // n blocks of bs bytes.
  function Span(n: nat, bs: nat): nat { if n == 0 then 0 else bs + Span(n - 1, bs) }

  lemma {:induction false} SpanIs(n: nat, bs: nat)
    ensures Span(n, bs) == n * bs
  {
    if n > 0 {
      SpanIs(n - 1, bs);
      assert (n - 1) * bs == n * bs - bs;
    }
  }

  lemma {:induction false} BytesLength(d: Image, blocks: seq<nat>, n: nat)
    requires d.bs >= 1
    ensures |Bytes(d, blocks, n)| == if n <= Span(|blocks|, d.bs) then n else Span(|blocks|, d.bs)
    decreases |blocks|
  {
    hide Data;
    if blocks != [] && n > d.bs { BytesLength(d, blocks[1..], n - d.bs); }
  }

  /** Byte r of the n-th block is at n * bs + r. */
  lemma {:induction false} BytesAt(d: Image, blocks: seq<nat>, size: nat, n: nat, r: nat)
    requires r < d.bs && n < |blocks| && Span(n, d.bs) + r < size <= Span(|blocks|, d.bs)
    ensures |Bytes(d, blocks, size)| == size && Bytes(d, blocks, size)[Span(n, d.bs) + r] == Data(d, blocks[n])[r]
    decreases |blocks|
  {
    hide Data;
    BytesLength(d, blocks, size);
    if n > 0 { BytesAt(d, blocks[1..], size - d.bs, n - 1, r); }
  }

  lemma {:induction false} BytesBoth(d: Image, a: seq<nat>, b: seq<nat>, n: nat)
    requires d.bs >= 1
    ensures Bytes(d, a + b, n) == Bytes(d, a, n) + Bytes(d, b, Minus(n, Span(|a|, d.bs)))
    decreases |a|
  {
    hide Data;
    hide Bytes;
    BytesStep(d, a, n);
    BytesStep(d, a + b, n);
    BytesStep(d, b, 0);
    if a == [] {
      assert a + b == b && [] + Bytes(d, b, n) == Bytes(d, b, n);
    } else {
      assert (a + b)[1..] == a[1..] + b;
      if n > d.bs {
        BytesBoth(d, a[1..], b, n - d.bs);
        var x, y, z := Data(d, a[0]), Bytes(d, a[1..], n - d.bs), Bytes(d, b, Minus(n, Span(|a|, d.bs)));
        assert x + (y + z) == x + y + z;
      }
    }
  }

  lemma BytesStep(d: Image, blocks: seq<nat>, n: nat)
    ensures Bytes(d, blocks, n) ==
      if blocks == [] || n == 0 then []
      else if n <= d.bs then Data(d, blocks[0])[..n]
      else Data(d, blocks[0]) + Bytes(d, blocks[1..], n - d.bs)
  {
  }

  /** The blocks that the first n bytes need are in reach. */
  ghost predicate Backed(d: Image, blocks: seq<nat>, n: nat)
    decreases |blocks|
  {
    blocks == [] || n == 0 || (InReach(d, blocks[0]) && Backed(d, blocks[1..], if n <= d.bs then 0 else n - d.bs))
  }

  // ---------------------------------------------------------------- the loops

  // The loops' test whether a whole block is left, in 32 bits.
  function WriteLen(copied: nat, size: nat, bs: nat): (len: nat)
    requires copied < size
    ensures len <= bs || copied + len == size
  {
    if (copied + bs) % UINT > size then size - copied else bs
  }

  /** The length is that of the block's part of the file exactly if the sum has not wrapped around. */
  lemma WriteLenExact(copied: nat, size: nat, bs: nat)
    requires copied < size < UINT && 1 <= bs < UINT
    ensures WriteLen(copied, size, bs) <= bs
    ensures WriteLen(copied, size, bs) == (if size - copied < bs then size - copied else bs) <==> copied + bs < UINT
  {
    if copied + bs >= UINT { assert (copied + bs) % UINT == copied + bs - UINT; }
  }

  /** The last block of a file of one byte less than 4 GiB, in blocks of 4096 bytes. */
  lemma WriteLenWraps()
    ensures WriteLen(UINT - 4096, UINT - 1, 4096) == 4096 && (UINT - 1) - (UINT - 4096) == 4095
  {
  }

  /** bytes_copied, the buffer, and the bytes written. */
  datatype Copy = Copy(copied: nat, buffer: seq<Byte>, out: seq<Byte>)

  predicate CopyOk(d: Image, c: Copy) { d.bs >= 1 && |c.buffer| == d.bs && c.copied < UINT }

  /** One turn of a copy loop before it reads ahead. */
  function Turn(d: Image, size: nat, c: Copy): (r: Copy)
    requires CopyOk(d, c) && c.copied < size < UINT && d.bs < UINT
    ensures CopyOk(d, r)
  {
    WriteLenExact(c.copied, size, d.bs);
    var len := WriteLen(c.copied, size, d.bs);
    Copy((c.copied + len) % UINT, c.buffer, c.out + c.buffer[..len])
  }

  /** A copy loop over the pointers ptrs from idx up to limit; past is what a look beyond the end
      of ptrs happens to find. */
  function CopyRun(d: Image, ptrs: seq<nat>, limit: nat, past: nat, size: nat, idx: nat, c: Copy): (r: Copy)
    requires CopyOk(d, c) && idx <= limit <= |ptrs| && size < UINT && d.bs < UINT
    ensures CopyOk(d, r)
    decreases limit - idx
  {
    if c.copied >= size || idx == limit then c
    else
      var c1 := Turn(d, size, c);
      if WriteLen(c.copied, size, d.bs) == d.bs then
        CopyRun(d, ptrs, limit, past, size, idx + 1, c1.(buffer := Read(d, if idx + 1 < |ptrs| then ptrs[idx + 1] else past, c.buffer)))
      else c1
  }

  /** What the loops find in memory that is not theirs or not set yet: past(k) beyond the end of the
      k-th indirect block, junk(k) in that block's buffer before it is read. */
  datatype Memory = Memory(past: nat -> nat, junk: nat -> seq<Byte>)

  ghost predicate MemoryOk(d: Image, e: Memory) { forall k: nat :: |e.junk(k)| == d.bs }

  /** Indirect block b, the k-th to be read: its pointers, their first block, and the loop. */
  ghost function IndirectRun(d: Image, b: nat, e: Memory, k: nat, size: nat, c: Copy): (r: Copy)
    requires CopyOk(d, c) && Ok(d) && MemoryOk(d, e) && size < UINT
    ensures CopyOk(d, r)
  {
    var ind := Words(Read(d, b, e.junk(k)));
    CopyRun(d, ind, Per(d), e.past(k), size, 0, c.(buffer := Read(d, ind[0], c.buffer)))
  }

  /** The loop over the double-indirect block's pointers from idx on. */
  ghost function ThroughRun(d: Image, outer: seq<nat>, e: Memory, size: nat, idx: nat, c: Copy): (r: Copy)
    requires CopyOk(d, c) && Ok(d) && MemoryOk(d, e) && idx <= |outer| && size < UINT
    ensures CopyOk(d, r)
    decreases |outer| - idx
  {
    if c.copied >= size || idx == |outer| then c
    else ThroughRun(d, outer, e, size, idx + 1, IndirectRun(d, outer[idx], e, idx + 2, size, c))
  }

  /** The three parts, one after the other. */
  ghost function DirectPart(d: Image, iblock: seq<nat>, e: Memory, size: nat, buffer: seq<Byte>): (r: Copy)
    requires Ok(d) && MemoryOk(d, e) && |iblock| == 15 && size < UINT && |buffer| == d.bs
    ensures CopyOk(d, r)
  {
    CopyRun(d, iblock, NDIRECT, 0, size, 0, Copy(0, Read(d, iblock[0], buffer), []))
  }

  ghost function IndirectPart(d: Image, iblock: seq<nat>, e: Memory, size: nat, c: Copy): (r: Copy)
    requires CopyOk(d, c) && Ok(d) && MemoryOk(d, e) && |iblock| == 15 && size < UINT
    ensures CopyOk(d, r)
  {
    if c.copied < size then IndirectRun(d, iblock[12], e, 0, size, c) else c
  }

  ghost function DoublePart(d: Image, iblock: seq<nat>, e: Memory, size: nat, c: Copy): (r: Copy)
    requires CopyOk(d, c) && Ok(d) && MemoryOk(d, e) && |iblock| == 15 && size < UINT
    ensures CopyOk(d, r)
  {
    if c.copied < size then ThroughRun(d, Words(Read(d, iblock[13], e.junk(1))), e, size, 0, c) else c
  }

  /** All that is written for a file. */
  ghost function Recovered(d: Image, iblock: seq<nat>, e: Memory, size: nat, buffer: seq<Byte>): seq<Byte>
    requires Ok(d) && MemoryOk(d, e) && |iblock| == 15 && size < UINT && |buffer| == d.bs
  {
    DoublePart(d, iblock, e, size, IndirectPart(d, iblock, e, size, DirectPart(d, iblock, e, size, buffer))).out
  }

  // ---------------------------------------------------------------- in place

  // One of the copy loops, from the first pointer on.
  method CopyBlocks(d: Image, ptrs: seq<nat>, limit: nat, past: nat, size: nat, c: Copy) returns (r: Copy)
    requires CopyOk(d, c) && limit <= |ptrs| && size < UINT && d.bs < UINT
    ensures r == CopyRun(d, ptrs, limit, past, size, 0, c)
  {
    hide Read;
    hide WriteLen;
    var copied: nat, buffer, out, idx: nat := c.copied, c.buffer, c.out, 0;
    while copied < size && idx < limit
      invariant 0 <= idx <= limit && CopyOk(d, Copy(copied, buffer, out))
      invariant CopyRun(d, ptrs, limit, past, size, 0, c) == CopyRun(d, ptrs, limit, past, size, idx, Copy(copied, buffer, out))
      decreases limit - idx, size - copied
    {
      WriteLenExact(copied, size, d.bs);
      var len := WriteLen(copied, size, d.bs);
      if len != d.bs { ShortIsLast(copied, size, d.bs); }
      copied := (copied + len) % UINT;
      out := out + buffer[..len];
      if len == d.bs {
        idx := idx + 1;
        buffer := Read(d, if idx < |ptrs| then ptrs[idx] else past, buffer);
      }
    }
    r := Copy(copied, buffer, out);
  }

  // A write of less than a block is the last.
  lemma ShortIsLast(copied: nat, size: nat, bs: nat)
    requires copied < size < UINT && 1 <= bs < UINT && WriteLen(copied, size, bs) != bs
    ensures (copied + WriteLen(copied, size, bs)) % UINT == size == copied + WriteLen(copied, size, bs)
  {
  }

  // One indirect block: read it, its first data block, and run over its pointers.
  method CopyIndirect(d: Image, b: nat, e: Memory, k: nat, size: nat, c: Copy) returns (r: Copy)
    requires CopyOk(d, c) && Ok(d) && MemoryOk(d, e) && size < UINT
    ensures r == IndirectRun(d, b, e, k, size, c)
  {
    hide Read;
    hide Words;
    hide CopyRun;
    var ind := Words(Read(d, b, e.junk(k)));
    r := CopyBlocks(d, ind, Per(d), e.past(k), size, c.(buffer := Read(d, ind[0], c.buffer)));
  }

  // The two nested loops over the double-indirect block's pointers.
  method CopyThrough(d: Image, outer: seq<nat>, e: Memory, size: nat, c: Copy) returns (r: Copy)
    requires CopyOk(d, c) && Ok(d) && MemoryOk(d, e) && size < UINT
    ensures r == ThroughRun(d, outer, e, size, 0, c)
  {
    hide IndirectRun;
    r := c;
    var idx := 0;
    while r.copied < size && idx < |outer|
      invariant 0 <= idx <= |outer| && CopyOk(d, r)
      invariant ThroughRun(d, outer, e, size, 0, c) == ThroughRun(d, outer, e, size, idx, r)
      decreases |outer| - idx
    {
      r := CopyIndirect(d, outer[idx], e, idx + 2, size, r);
      idx := idx + 1;
    }
  }

  // The three loops, one after the other.
  method Recover(d: Image, iblock: seq<nat>, e: Memory, size: nat, buffer: seq<Byte>) returns (out: seq<Byte>)
    requires Ok(d) && MemoryOk(d, e) && |iblock| == 15 && size < UINT && |buffer| == d.bs
    ensures out == Recovered(d, iblock, e, size, buffer)
  {
    hide Read;
    hide Words;
    hide CopyRun;
    hide IndirectRun;
    hide ThroughRun;
    var c := CopyBlocks(d, iblock, NDIRECT, 0, size, Copy(0, Read(d, iblock[0], buffer), []));
    if c.copied < size { c := CopyIndirect(d, iblock[12], e, 0, size, c); }
    if c.copied < size { c := CopyThrough(d, Words(Read(d, iblock[13], e.junk(1))), e, size, c); }
    out := c.out;
  }

  // ---------------------------------------------------------------- right, unless the test wraps

  // c has gone on from b by the first n bytes of these blocks.
  ghost predicate Went(d: Image, blocks: seq<nat>, n: nat, b: Copy, c: Copy) {
    c.out == b.out + Bytes(d, blocks, n) && c.copied == b.copied + |Bytes(d, blocks, n)|
  }

  lemma {:induction false} CopyRunBytes(d: Image, ptrs: seq<nat>, limit: nat, past: nat, size: nat, idx: nat, c: Copy)
    requires Ok(d) && CopyOk(d, c) && idx <= limit <= |ptrs| && c.copied <= size && size + d.bs <= UINT
    requires Backed(d, ptrs[idx..limit], size - c.copied)
    requires idx < limit && c.copied < size ==> c.buffer == Data(d, ptrs[idx])
    ensures Went(d, ptrs[idx..limit], size - c.copied, c, CopyRun(d, ptrs, limit, past, size, idx, c))
    decreases limit - idx
  {
    hide Backed;
    hide Bytes;
    hide Data;
    hide Read;
    hide Went;
    hide Turn;
    hide WriteLen;
    if c.copied >= size || idx == limit {
      WentNowhere(d, ptrs[idx..limit], size - c.copied, c);
    } else {
      var rest, left := ptrs[idx..limit], size - c.copied;
      assert rest[0] == ptrs[idx] && rest[1..] == ptrs[idx + 1..limit];
      TurnIs(d, size, c);
      var c1 := Turn(d, size, c);
      if WriteLen(c.copied, size, d.bs) == d.bs {
        var next := c1.(buffer := Read(d, if idx + 1 < |ptrs| then ptrs[idx + 1] else past, c.buffer));
        TakeOne(d, rest, left, c, next);
        if idx + 1 < limit && c1.copied < size { ReadNext(d, rest[1..], size - c1.copied, c.buffer); }
        CopyRunBytes(d, ptrs, limit, past, size, idx + 1, next);
        WentOn(d, rest, left, c, next, CopyRun(d, ptrs, limit, past, size, idx + 1, next));
      } else {
        TakeOne(d, rest, left, c, c1);
      }
    }
  }

  lemma TurnIs(d: Image, size: nat, c: Copy)
    requires Ok(d) && CopyOk(d, c) && c.copied < size && size + d.bs <= UINT
    ensures var c1, len := Turn(d, size, c), WriteLen(c.copied, size, d.bs);
      && len == (if size - c.copied < d.bs then size - c.copied else d.bs)
      && c1.copied == c.copied + len && c1.buffer == c.buffer && c1.out == c.out + c.buffer[..len]
  {
    WriteLenExact(c.copied, size, d.bs);
  }

  lemma WentNowhere(d: Image, blocks: seq<nat>, n: nat, c: Copy)
    requires blocks == [] || n == 0
    ensures Went(d, blocks, n, c, c)
  {
    assert c.out + [] == c.out;
  }

  // The next block is read right when the file needs it.
  lemma ReadNext(d: Image, blocks: seq<nat>, n: nat, buffer: seq<Byte>)
    requires d.bs >= 1 && blocks != [] && n > 0 && Backed(d, blocks, n) && |buffer| == d.bs
    ensures Read(d, blocks[0], buffer) == Data(d, blocks[0])
  {
    hide Read;
    hide Data;
    ReadIsData(d, blocks[0], buffer);
  }

  // One turn of a loop.
  lemma TakeOne(d: Image, rest: seq<nat>, left: nat, c: Copy, c1: Copy)
    requires rest != [] && left > 0 && d.bs >= 1 && c.buffer == Data(d, rest[0]) && Backed(d, rest, left)
    requires var len := if left < d.bs then left else d.bs; c1.out == c.out + c.buffer[..len] && c1.copied == c.copied + len
    ensures if left >= d.bs then Went(d, [rest[0]], left, c, c1) && Backed(d, rest[1..], left - d.bs)
            else Went(d, rest, left, c, c1)
  {
    hide Data;
    if left >= d.bs {
      assert c.buffer[..d.bs] == c.buffer;
      BytesStep(d, [rest[0]], left);
      assert Data(d, rest[0]) + [] == Data(d, rest[0]);
    }
  }

  lemma WentOn(d: Image, rest: seq<nat>, left: nat, c: Copy, c1: Copy, c2: Copy)
    requires rest != [] && left >= d.bs >= 1 && Went(d, [rest[0]], left, c, c1) && Went(d, rest[1..], left - d.bs, c1, c2)
    ensures Went(d, rest, left, c, c2)
  {
    hide Data;
    WentBoth(d, [rest[0]], rest[1..], left, c, c1, c2);
    assert [rest[0]] + rest[1..] == rest;
  }

  // Over one list of blocks, then over the next.
  lemma WentBoth(d: Image, a: seq<nat>, b: seq<nat>, n: nat, c: Copy, c1: Copy, c2: Copy)
    requires d.bs >= 1 && Went(d, a, n, c, c1) && Went(d, b, Minus(n, Span(|a|, d.bs)), c1, c2)
    ensures Went(d, a + b, n, c, c2)
  {
    hide Data;
    hide Bytes;
    hide Span;
    BytesBoth(d, a, b, n);
    JoinThree(c.out, Bytes(d, a, n), Bytes(d, b, Minus(n, Span(|a|, d.bs))));
  }

  lemma JoinThree(x: seq<Byte>, y: seq<Byte>, z: seq<Byte>)
    ensures x + (y + z) == x + y + z
  {
  }

  /** Enough of the image for the loops: every block the file needs, data or pointers. */
  ghost predicate FileBacked(d: Image, iblock: seq<nat>, size: nat)
    requires |iblock| == 15
  {
    var ind, outer := Words(Data(d, iblock[12])), Words(Data(d, iblock[13]));
    var n1 := Minus(size, Span(NDIRECT, d.bs));
    var n2 := Minus(n1, Span(Per(d), d.bs));
    && Backed(d, iblock[..NDIRECT], size)
    && (n1 > 0 ==> InReach(d, iblock[12]) && Backed(d, ind, n1))
    && (n2 > 0 ==> InReach(d, iblock[13]) && OuterBacked(d, outer, n2))
  }

  function Minus(a: nat, b: nat): nat { if a <= b then 0 else a - b }

  ghost predicate OuterBacked(d: Image, outer: seq<nat>, n: nat)
    decreases |outer|
  {
    outer == [] || n == 0 ||
    (&& InReach(d, outer[0]) && Backed(d, Words(Data(d, outer[0])), n)
     && OuterBacked(d, outer[1..], Minus(n, Span(Per(d), d.bs))))
  }

  lemma BackedFirst(d: Image, blocks: seq<nat>, n: nat)
    requires Backed(d, blocks, n) && blocks != [] && n > 0
    ensures InReach(d, blocks[0])
  {
  }

  lemma IndirectRunBytes(d: Image, b: nat, e: Memory, k: nat, size: nat, c: Copy)
    requires CopyOk(d, c) && Ok(d) && MemoryOk(d, e) && c.copied < size && size + d.bs <= UINT
    requires InReach(d, b) && Backed(d, Words(Data(d, b)), size - c.copied)
    ensures Went(d, Words(Data(d, b)), size - c.copied, c, IndirectRun(d, b, e, k, size, c))
  {
    hide Backed;
    hide Bytes;
    hide Data;
    hide Read;
    hide Words;
    hide CopyRun;
    ReadIsData(d, b, e.junk(k));
    var ind := Words(Read(d, b, e.junk(k)));
    BackedFirst(d, ind, size - c.copied);
    ReadIsData(d, ind[0], c.buffer);
    assert ind[0..Per(d)] == ind;
    CopyRunBytes(d, ind, Per(d), e.past(k), size, 0, c.(buffer := Read(d, ind[0], c.buffer)));
  }

  // The bytes that are left after a list of blocks.
  lemma LeftAfter(d: Image, blocks: seq<nat>, n: nat)
    requires d.bs >= 1
    ensures n - |Bytes(d, blocks, n)| == Minus(n, Span(|blocks|, d.bs))
  {
    hide Bytes;
    BytesLength(d, blocks, n);
  }

  lemma {:induction false} ThroughRunBytes(d: Image, outer: seq<nat>, e: Memory, size: nat, idx: nat, c: Copy)
    requires CopyOk(d, c) && Ok(d) && MemoryOk(d, e) && idx <= |outer| && c.copied <= size && size + d.bs <= UINT
    requires OuterBacked(d, outer[idx..], size - c.copied)
    ensures Went(d, Through(d, outer[idx..]), size - c.copied, c, ThroughRun(d, outer, e, size, idx, c))
    decreases |outer| - idx
  {
    hide Backed;
    hide Bytes;
    hide Data;
    hide Words;
    hide IndirectRun;
    hide Went;
    if c.copied >= size || idx == |outer| {
      WentNowhere(d, Through(d, outer[idx..]), size - c.copied, c);
    } else {
      var rest, left := outer[idx..], size - c.copied;
      assert rest[0] == outer[idx] && rest[1..] == outer[idx + 1..];
      var here := Words(Data(d, rest[0]));
      IndirectRunBytes(d, outer[idx], e, idx + 2, size, c);
      var c1 := IndirectRun(d, outer[idx], e, idx + 2, size, c);
      WentLeft(d, here, left, c, c1, size);
      ThroughRunBytes(d, outer, e, size, idx + 1, c1);
      WentBoth(d, here, Through(d, rest[1..]), left, c, c1, ThroughRun(d, outer, e, size, idx + 1, c1));
    }
  }

  lemma WentLeft(d: Image, blocks: seq<nat>, n: nat, c: Copy, c1: Copy, size: nat)
    requires d.bs >= 1 && c.copied + n == size && Went(d, blocks, n, c, c1)
    ensures c1.copied <= size && size - c1.copied == Minus(n, Span(|blocks|, d.bs))
  {
    LeftAfter(d, blocks, n);
  }

  /** While the test cannot wrap around, exactly the first size bytes of the file are written,
      whatever the looks beyond the pointers find. */
  lemma RecoveredRight(d: Image, iblock: seq<nat>, e: Memory, size: nat, buffer: seq<Byte>)
    requires Ok(d) && MemoryOk(d, e) && |iblock| == 15 && |buffer| == d.bs && size + d.bs <= UINT && FileBacked(d, iblock, size)
    ensures Recovered(d, iblock, e, size, buffer) == Bytes(d, Blocks(d, iblock), size)
  {
    hide Backed;
    hide Bytes;
    hide Data;
    hide Words;
    hide OuterBacked;
    hide Span;
    hide Read;
    hide CopyRun;
    hide IndirectRun;
    hide ThroughRun;
    hide Went;
    var direct, ind, outer := iblock[..NDIRECT], Words(Data(d, iblock[12])), Words(Data(d, iblock[13]));
    var c0 := Copy(0, Read(d, iblock[0], buffer), []);
    if size > 0 {
      BackedFirst(d, direct, size);
      ReadIsData(d, iblock[0], buffer);
    }
    assert iblock[0..NDIRECT] == direct;
    CopyRunBytes(d, iblock, NDIRECT, 0, size, 0, c0);
    var c1 := DirectPart(d, iblock, e, size, buffer);
    WentLeft(d, direct, size, c0, c1, size);
    var n1 := size - c1.copied;
    if n1 > 0 { IndirectRunBytes(d, iblock[12], e, 0, size, c1); } else { WentNowhere(d, ind, 0, c1); }
    var c2 := IndirectPart(d, iblock, e, size, c1);
    WentLeft(d, ind, n1, c1, c2, size);
    var n2 := size - c2.copied;
    assert outer[0..] == outer;
    if n2 > 0 {
      ReadIsData(d, iblock[13], e.junk(1));
      ThroughRunBytes(d, outer, e, size, 0, c2);
    } else {
      WentNowhere(d, Through(d, outer), 0, c2);
    }
    var c3 := DoublePart(d, iblock, e, size, c2);
    WentBoth(d, ind, Through(d, outer), n1, c1, c2, c3);
    WentBoth(d, direct, ind + Through(d, outer), size, c0, c1, c3);
    WentFromStart(d, Blocks(d, iblock), size, c0, c3);
  }

  lemma WentFromStart(d: Image, blocks: seq<nat>, n: nat, c: Copy, c1: Copy)
    requires Went(d, blocks, n, c, c1) && c.out == []
    ensures c1.out == Bytes(d, blocks, n)
  {
  }

  // ---------------------------------------------------------------- and wrong when it does

  /** Either no turn has wrapped yet, with n whole blocks written, or too much has been. */
  predicate Doomed(d: Image, n: nat, c: Copy) {
    |c.out| >= UINT || (|c.out| == c.copied == n * d.bs && c.copied + d.bs <= UINT)
  }

  lemma TurnDooms(d: Image, size: nat, n: nat, c: Copy)
    requires Ok(d) && CopyOk(d, c) && Doomed(d, n, c) && c.copied < size < UINT < size + d.bs
    ensures var c1 := Turn(d, size, c);
      Doomed(d, n + 1, c1) && (|c1.out| < UINT ==> WriteLen(c.copied, size, d.bs) == d.bs && c1.copied < size)
  {
    WriteLenExact(c.copied, size, d.bs);
    if |c.out| < UINT {
      assert (n + 1) * d.bs == n * d.bs + d.bs;
      if c.copied + d.bs < UINT { NextMultiple(d, n + 1); }
    }
  }

  lemma NextMultiple(d: Image, n: nat)
    requires Ok(d) && n * d.bs < UINT
    ensures n * d.bs + d.bs <= UINT
  {
    var q := UINT / d.bs;
    assert UINT == q * d.bs;
    MulLess(n, q, d.bs);
    MulMono(n + 1, q, d.bs);
    assert (n + 1) * d.bs == n * d.bs + d.bs;
  }

  lemma {:induction false} CopyRunDooms(d: Image, ptrs: seq<nat>, limit: nat, past: nat, size: nat, idx: nat, c: Copy, n: nat)
    requires Ok(d) && CopyOk(d, c) && idx <= limit <= |ptrs| && size < UINT < size + d.bs && Doomed(d, n, c)
    ensures Doomed(d, n + (limit - idx), CopyRun(d, ptrs, limit, past, size, idx, c))
    decreases limit - idx
  {
    hide Read;
    hide WriteLen;
    if idx < limit && c.copied < size {
      TurnDooms(d, size, n, c);
      if WriteLen(c.copied, size, d.bs) == d.bs {
        var next := Turn(d, size, c).(buffer := Read(d, if idx + 1 < |ptrs| then ptrs[idx + 1] else past, c.buffer));
        CopyRunDooms(d, ptrs, limit, past, size, idx + 1, next, n + 1);
      }
    }
  }

  lemma {:induction false} ThroughRunDooms(d: Image, outer: seq<nat>, e: Memory, size: nat, idx: nat, c: Copy, n: nat)
    requires Ok(d) && MemoryOk(d, e) && CopyOk(d, c) && idx <= |outer| && size < UINT < size + d.bs && Doomed(d, n, c)
    ensures Doomed(d, n + Span(|outer| - idx, Per(d)), ThroughRun(d, outer, e, size, idx, c))
    decreases |outer| - idx
  {
    hide Read;
    hide Words;
    hide CopyRun;
    if idx < |outer| && c.copied < size {
      var ind := Words(Read(d, outer[idx], e.junk(idx + 2)));
      CopyRunDooms(d, ind, Per(d), e.past(idx + 2), size, 0, c.(buffer := Read(d, ind[0], c.buffer)), n);
      ThroughRunDooms(d, outer, e, size, idx + 1, IndirectRun(d, outer[idx], e, idx + 2, size, c), n + Per(d));
    }
  }

  /** Once the test wraps around, more than the file is written. */
  lemma RecoveredTooLong(d: Image, iblock: seq<nat>, e: Memory, size: nat, buffer: seq<Byte>)
    requires Ok(d) && MemoryOk(d, e) && |iblock| == 15 && |buffer| == d.bs
    requires size < UINT < size + d.bs && size <= Span(MaxBlocks(d), d.bs)
    ensures |Recovered(d, iblock, e, size, buffer)| >= UINT
  {
    hide Read;
    hide Words;
    hide CopyRun;
    hide ThroughRun;
    hide Span;
    var c0 := Copy(0, Read(d, iblock[0], buffer), []);
    CopyRunDooms(d, iblock, NDIRECT, 0, size, 0, c0, 0);
    var c1 := DirectPart(d, iblock, e, size, buffer);
    var ind := Words(Read(d, iblock[12], e.junk(0)));
    CopyRunDooms(d, ind, Per(d), e.past(0), size, 0, c1.(buffer := Read(d, ind[0], c1.buffer)), NDIRECT);
    var c2 := IndirectPart(d, iblock, e, size, c1);
    ThroughRunDooms(d, Words(Read(d, iblock[13], e.junk(1))), e, size, 0, c2, NDIRECT + Per(d));
    SpanIs(Per(d), Per(d));
    SpanIs(MaxBlocks(d), d.bs);
  }

  /** For every size up to 12 + p + p * p blocks that an i_size can hold: what is written is the
      file exactly if the size is not within one block of 2^32. */
  lemma RecoveryExact(d: Image, iblock: seq<nat>, e: Memory, size: nat, buffer: seq<Byte>)
    requires Ok(d) && MemoryOk(d, e) && |iblock| == 15 && |buffer| == d.bs && FileBacked(d, iblock, size)
    requires size < UINT && size <= Span(MaxBlocks(d), d.bs)
    ensures Recovered(d, iblock, e, size, buffer) == Bytes(d, Blocks(d, iblock), size) <==> size + d.bs <= UINT
  {
    hide Recovered;
    hide Bytes;
    hide Blocks;
    hide Span;
    hide FileBacked;
    if size + d.bs <= UINT {
      RecoveredRight(d, iblock, e, size, buffer);
    } else {
      RecoveredTooLong(d, iblock, e, size, buffer);
      BytesAtMost(d, Blocks(d, iblock), size);
    }
  }

  // ---------------------------------------------------------------- a file that is not recovered

  /** One block of zeros: every pointer on it leads back to it. */
  function ZeroImage(): Image { Image(seq(4096, i => 0), 4096) }

  function ZeroPointers(): seq<nat> { seq(15, i => 0) }

  lemma ZeroData()
    ensures Data(ZeroImage(), 0) == ZeroImage().bytes && InReach(ZeroImage(), 0)
    ensures forall j | 0 <= j < 1024 :: Words(ZeroImage().bytes)[j] == 0
  {
  }

  lemma {:induction false} ZeroBacked(blocks: seq<nat>, n: nat)
    requires forall i | 0 <= i < |blocks| :: blocks[i] == 0
    ensures Backed(ZeroImage(), blocks, n)
    decreases |blocks|
  {
    hide ZeroImage;
    if blocks != [] && n > 0 {
      ZeroData();
      ZeroBacked(blocks[1..], if n <= ZeroImage().bs then 0 else n - ZeroImage().bs);
    }
  }

  lemma {:induction false} ZeroOuterBacked(outer: seq<nat>, n: nat)
    requires forall i | 0 <= i < |outer| :: outer[i] == 0
    ensures OuterBacked(ZeroImage(), outer, n)
    decreases |outer|
  {
    hide Span;
    hide Word;
    hide Backed;
    if outer != [] && n > 0 {
      var d := ZeroImage();
      ZeroData();
      ZeroBacked(Words(Data(d, outer[0])), n);
      ZeroOuterBacked(outer[1..], Minus(n, Span(Per(d), d.bs)));
    }
  }

  /** A file of one byte less than 4 GiB, in blocks of 4096 bytes, is not recovered. */
  lemma LargestFileFails(e: Memory)
    requires MemoryOk(ZeroImage(), e)
    ensures var d, iblock, size := ZeroImage(), ZeroPointers(), UINT - 1;
      && FileBacked(d, iblock, size) && size <= Span(MaxBlocks(d), d.bs)
      && Recovered(d, iblock, e, size, d.bytes) != Bytes(d, Blocks(d, iblock), size)
  {
    hide Recovered;
    hide Bytes;
    hide Blocks;
    hide Span;
    hide Word;
    hide Backed;
    hide OuterBacked;
    var d, iblock, size := ZeroImage(), ZeroPointers(), UINT - 1;
    ZeroData();
    var ind := Words(Data(d, 0));
    var n1 := Minus(size, Span(NDIRECT, d.bs));
    ZeroBacked(iblock[..NDIRECT], size);
    ZeroBacked(ind, n1);
    ZeroOuterBacked(ind, Minus(n1, Span(Per(d), d.bs)));
    SmallBlocksNeverWrap(d);
    RecoveryExact(d, iblock, e, size, d.bytes);
  }

  lemma BytesAtMost(d: Image, blocks: seq<nat>, n: nat)
    requires d.bs >= 1
    ensures |Bytes(d, blocks, n)| <= n
  {
    hide Bytes;
    BytesLength(d, blocks, n);
  }

  // ---------------------------------------------------------------- what that means

  /** The most blocks the pointers reach. */
  function MaxBlocks(d: Image): nat { NDIRECT + Per(d) + Per(d) * Per(d) }

  /** For every size up to 12 + p + p * p blocks the result has that size, and byte r of block n of
      it is the one that the nth-block map gives. */
  lemma RecoveredBytes(d: Image, iblock: seq<nat>, size: nat, n: nat, r: nat)
    requires Ok(d) && |iblock| == 15 && size <= Span(MaxBlocks(d), d.bs)
    requires n < MaxBlocks(d) && r < d.bs && Span(n, d.bs) + r < size
    ensures Span(n, d.bs) == n * d.bs
    ensures var out := Bytes(d, Blocks(d, iblock), size);
      |out| == size && out[Span(n, d.bs) + r] == Data(d, NthBlock(d, iblock, n))[r]
  {
    hide Data;
    hide Bytes;
    hide Blocks;
    hide Words;
    hide NthBlock;
    hide Span;
    SpanIs(n, d.bs);
    BlocksNth(d, iblock, n);
    BytesAt(d, Blocks(d, iblock), size, n, r);
  }

  /** The pointer v lies at byte pos of the image, the low byte first. */
  predicate PointerAt(d: Image, pos: nat, v: nat) {
    && pos + 4 <= |d.bytes| && d.bytes[pos] == v % 256 && d.bytes[pos + 1] == v / 256 % 256
    && d.bytes[pos + 2] == v / 256 / 256 % 256 && d.bytes[pos + 3] == v / 256 / 256 / 256
  }

  // Entry m of a table with p to a row.
  function Row(m: nat, p: nat): nat
    requires p >= 1
  {
    m / p
  }

  function Col(m: nat, p: nat): nat
    requires p >= 1
  {
    m % p
  }

  // Byte r of block b on the image.
  function Pos(d: Image, b: nat, r: nat): nat { b * d.bs + r }

  /** The inode's pointers lead to b as the n-th block of the file: twelve direct ones, those in the
      block of the thirteenth, and those in the blocks that the block of the fourteenth points to. */
  ghost predicate Leads(d: Image, iblock: seq<nat>, n: nat, b: nat)
    requires |iblock| == 15 && d.bs >= 4
  {
    var p := d.bs / 4;
    if n < 12 then b == iblock[n]
    else if n - 12 < p then PointerAt(d, Pos(d, iblock[12], 4 * (n - 12)), b)
    else
      var m := n - 12 - p;
      exists ind: nat :: PointerAt(d, Pos(d, iblock[13], 4 * Row(m, p)), ind) && PointerAt(d, Pos(d, ind, 4 * Col(m, p)), b)
  }

  lemma WordOnImage(d: Image, b: nat, j: nat)
    requires Ok(d) && OnDisk(d, b) && j < Per(d)
    ensures PointerAt(d, Pos(d, b, 4 * j), Words(Data(d, b))[j])
  {
    hide Word;
    WordBytes(Data(d, b), j);
  }

  lemma {:induction false} BackedNth(d: Image, blocks: seq<nat>, size: nat, n: nat)
    requires Backed(d, blocks, size) && n < |blocks| && Span(n, d.bs) < size
    ensures InReach(d, blocks[n])
    decreases |blocks|
  {
    if n > 0 { BackedNth(d, blocks[1..], size - d.bs, n - 1); }
  }

  lemma {:induction false} OuterNth(d: Image, outer: seq<nat>, size: nat, q: nat)
    requires OuterBacked(d, outer, size) && q < |outer| && Span(q, Span(Per(d), d.bs)) < size
    ensures InReach(d, outer[q]) && Backed(d, Words(Data(d, outer[q])), size - Span(q, Span(Per(d), d.bs)))
    decreases |outer|
  {
    hide Backed;
    hide Words;
    hide Data;
    if q > 0 { OuterNth(d, outer[1..], size - Span(Per(d), d.bs), q - 1); }
  }

  lemma SpanPlus(a: nat, b: nat, bs: nat)
    ensures Span(a + b, bs) == Span(a, bs) + Span(b, bs)
  {
    SpanIs(a, bs);
    SpanIs(b, bs);
    SpanIs(a + b, bs);
    Distribute(a, b, bs);
  }

  lemma Distribute(a: nat, b: nat, c: nat)
    ensures (a + b) * c == a * c + b * c
  {
  }

  lemma {:induction false} SpanTimes(q: nat, p: nat, bs: nat)
    ensures Span(q * p, bs) == Span(q, Span(p, bs))
  {
    if q > 0 {
      SpanTimes(q - 1, p, bs);
      SpanPlus(p, (q - 1) * p, bs);
      assert q * p == p + (q - 1) * p;
    }
  }

  // Where block n is behind the double-indirect block.
  lemma SpanOf(n: nat, p: nat, bs: nat)
    requires p >= 1 && NDIRECT + p <= n < NDIRECT + p + p * p
    ensures var q, j := Row(n - NDIRECT - p, p), Col(n - NDIRECT - p, p);
      q < p && j < p && Span(n, bs) == Span(NDIRECT, bs) + Span(p, bs) + Span(q, Span(p, bs)) + Span(j, bs)
  {
    var m := n - NDIRECT - p;
    DivBelow(m, p);
    SpanSum(p, Row(m, p), Col(m, p), bs);
    assert n == NDIRECT + (p + (Row(m, p) * p + Col(m, p)));
  }

  lemma SpanSum(p: nat, q: nat, j: nat, bs: nat)
    ensures Span(NDIRECT + (p + (q * p + j)), bs) == Span(NDIRECT, bs) + Span(p, bs) + Span(q, Span(p, bs)) + Span(j, bs)
  {
    hide Span;
    SpanPlus(NDIRECT, p + (q * p + j), bs);
    SpanPlus(p, q * p + j, bs);
    SpanPlus(q * p, j, bs);
    SpanTimes(q, p, bs);
  }

  lemma DirectLeads(d: Image, iblock: seq<nat>, size: nat, n: nat)
    requires Ok(d) && |iblock| == 15 && FileBacked(d, iblock, size) && n < NDIRECT && Span(n, d.bs) < size
    ensures InReach(d, iblock[n])
  {
    BackedNth(d, iblock[..NDIRECT], size, n);
  }

  lemma IndirectLeads(d: Image, iblock: seq<nat>, size: nat, j: nat)
    requires Ok(d) && |iblock| == 15 && FileBacked(d, iblock, size) && j < Per(d) && Span(NDIRECT, d.bs) + Span(j, d.bs) < size
    ensures PointerAt(d, Pos(d, iblock[12], 4 * j), Words(Data(d, iblock[12]))[j]) && InReach(d, Words(Data(d, iblock[12]))[j])
  {
    hide Backed;
    hide OuterBacked;
    hide Words;
    hide Data;
    hide Span;
    hide PointerAt;
    WordOnImage(d, iblock[12], j);
    BackedNth(d, Words(Data(d, iblock[12])), size - Span(NDIRECT, d.bs), j);
  }

  lemma InReachOnDisk(d: Image, b: nat)
    requires InReach(d, b)
    ensures OnDisk(d, b)
  {
  }

  lemma DoubleLeads(d: Image, iblock: seq<nat>, size: nat, q: nat, j: nat)
    requires Ok(d) && |iblock| == 15 && FileBacked(d, iblock, size) && q < Per(d) && j < Per(d)
    requires Span(NDIRECT, d.bs) + Span(Per(d), d.bs) + Span(q, Span(Per(d), d.bs)) + Span(j, d.bs) < size
    ensures var ind := Words(Data(d, iblock[13]))[q];
      && PointerAt(d, Pos(d, iblock[13], 4 * q), ind) && PointerAt(d, Pos(d, ind, 4 * j), Words(Data(d, ind))[j])
      && InReach(d, Words(Data(d, ind))[j])
  {
    hide Backed;
    hide OuterBacked;
    hide Words;
    hide Data;
    hide Span;
    hide PointerAt;
    hide Pos;
    hide InReach;
    InReachOnDisk(d, iblock[13]);
    var outer, left := Words(Data(d, iblock[13])), size - Span(NDIRECT, d.bs) - Span(Per(d), d.bs);
    WordOnImage(d, iblock[13], q);
    OuterNth(d, outer, left, q);
    InReachOnDisk(d, outer[q]);
    WordOnImage(d, outer[q], j);
    BackedNth(d, Words(Data(d, outer[q])), left - Span(q, Span(Per(d), d.bs)), j);
  }

  lemma OkPer(d: Image)
    requires Ok(d)
    ensures Per(d) >= 1 && d.bs >= 4
  {
  }

  // The n-th block of a file that the image backs is where the pointers lead.
  lemma NthLeads(d: Image, iblock: seq<nat>, size: nat, n: nat)
    requires Ok(d) && |iblock| == 15 && FileBacked(d, iblock, size) && n < MaxBlocks(d) && Span(n, d.bs) < size
    ensures Leads(d, iblock, n, NthBlock(d, iblock, n)) && InReach(d, NthBlock(d, iblock, n))
  {
    hide FileBacked;
    hide Words;
    hide Data;
    hide Span;
    hide PointerAt;
    hide InReach;
    hide Pos;
    hide Ok;
    hide Row;
    hide Col;
    hide NthBlock;
    OkPer(d);
    NthIs(d, iblock, n);
    if n < NDIRECT {
      DirectLeads(d, iblock, size, n);
    } else if n < NDIRECT + Per(d) {
      SpanPlus(NDIRECT, n - NDIRECT, d.bs);
      IndirectLeads(d, iblock, size, n - NDIRECT);
    } else {
      var m := n - NDIRECT - Per(d);
      SpanOf(n, Per(d), d.bs);
      DoubleLeads(d, iblock, size, Row(m, Per(d)), Col(m, Per(d)));
    }
  }

  lemma NthIs(d: Image, iblock: seq<nat>, n: nat)
    requires |iblock| == 15 && Per(d) >= 1 && n < MaxBlocks(d)
    ensures n < NDIRECT ==> NthBlock(d, iblock, n) == iblock[n]
    ensures NDIRECT <= n < NDIRECT + Per(d) ==> NthBlock(d, iblock, n) == Words(Data(d, iblock[12]))[n - NDIRECT]
    ensures n >= NDIRECT + Per(d) ==>
      var m := n - NDIRECT - Per(d);
      && Row(m, Per(d)) < Per(d) && Col(m, Per(d)) < Per(d)
      && NthBlock(d, iblock, n) == Words(Data(d, Words(Data(d, iblock[13]))[Row(m, Per(d))]))[Col(m, Per(d))]
  {
    hide Words;
    hide Data;
    if n >= NDIRECT + Per(d) { DivBelow(n - NDIRECT - Per(d), Per(d)); }
  }

  /** x is byte r of a block that the inode's pointers lead to as the n-th. */
  ghost predicate ByteOfFile(d: Image, iblock: seq<nat>, n: nat, r: nat, x: Byte)
    requires |iblock| == 15 && d.bs >= 4
  {
    exists b: nat :: Leads(d, iblock, n, b) && Pos(d, b, r) < |d.bytes| && x == d.bytes[Pos(d, b, r)]
  }

  lemma DataByte(d: Image, b: nat, r: nat)
    requires InReach(d, b) && r < d.bs
    ensures Pos(d, b, r) < |d.bytes| && Data(d, b)[r] == d.bytes[Pos(d, b, r)]
  {
  }

  /** In terms of the image alone: while the test cannot wrap around, what is written has the file's
      size, and each of its bytes is the one on the image that the inode's pointers lead to. */
  lemma RecoveredByte(d: Image, iblock: seq<nat>, e: Memory, size: nat, buffer: seq<Byte>, n: nat, r: nat)
    requires Ok(d) && MemoryOk(d, e) && |iblock| == 15 && |buffer| == d.bs && FileBacked(d, iblock, size)
    requires size + d.bs <= UINT && size <= Span(MaxBlocks(d), d.bs)
    requires n < MaxBlocks(d) && r < d.bs && Pos(d, n, r) < size
    ensures |Recovered(d, iblock, e, size, buffer)| == size && ByteOfFile(d, iblock, n, r, Recovered(d, iblock, e, size, buffer)[Pos(d, n, r)])
  {
    hide Recovered;
    hide Bytes;
    hide Blocks;
    hide Span;
    hide FileBacked;
    hide NthBlock;
    hide Leads;
    hide InReach;
    hide Data;
    SpanIs(n, d.bs);
    RecoveryExact(d, iblock, e, size, buffer);
    RecoveredBytes(d, iblock, size, n, r);
    NthLeads(d, iblock, size, n);
    DataByte(d, NthBlock(d, iblock, n), r);
  }

  /** On such a file the test can only wrap around with blocks of more than 2048 bytes. */
  lemma SmallBlocksNeverWrap(d: Image)
    requires Ok(d)
    ensures d.bs <= 2048 ==> Span(MaxBlocks(d), d.bs) + d.bs <= UINT
    ensures d.bs >= 4096 ==> Span(MaxBlocks(d), d.bs) > UINT
  {
    var p := Per(d);
    SpanIs(MaxBlocks(d), d.bs);
    if d.bs <= 2048 {
      MulMono(p, 512, p);
      MulMono(p, 512, 512);
      MulMono(MaxBlocks(d), 262668, d.bs);
      assert 262668 * d.bs <= 262668 * 2048;
    } else if d.bs >= 4096 {
      MulMono(1024, p, p);
      MulMono(1024, p, 1024);
      MulMono(1048577, MaxBlocks(d), d.bs);
      assert 1048577 * d.bs >= 1048577 * 4096;
    }
  }
}
