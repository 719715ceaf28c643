/**
 Files as byte sequences (easy-fs/src/layout.rs, easy-fs/src/vfs.rs): the
 block-by-block loops of `read_at` and `write_at`, run over the index tree,
 agree with slicing and overwriting one plain sequence.  A file's bytes past
 its end, slack and unallocated alike, are zero, which is what a gap reads as.
 */
module FileBytes {
  import opened Wrappers
  import opened Sequences
  import opened BlockDevice
  import opened IndexTree

  /** Byte `k` of the file with block list `s`; zero where there is no block. */
  function ByteAt(blocks: Blocks, s: seq<u32>, k: nat): byte {
    if Pos(k / 512) < |s| && s[Pos(k / 512)] in blocks then blocks[s[Pos(k / 512)]][k % 512] else 0
  }

  function Content(blocks: Blocks, s: seq<u32>, size: nat): seq<byte> {
    seq(size, k requires k >= 0 => ByteAt(blocks, s, k))
  }

  /** The inode holds list `s` and every byte from `size` on is zero. */
  ghost predicate FileOk(node: Node, size: nat, blocks: Blocks, s: seq<u32>) {
    Rep(node, blocks, s) && |s| == TotalBlocks(size) && size <= MAX_SIZE && ZeroFrom(blocks, s, size)
  }

  ghost predicate ZeroFrom(blocks: Blocks, s: seq<u32>, size: nat) {
    forall k: nat :: k >= size ==> ByteAt(blocks, s, k) == 0
  }

  // ----- the reference: a plain sequence -----

  /** `c` overwritten at `offset` by `buf`, extended with zeros where they leave a gap. */
  function Written(c: seq<byte>, offset: nat, buf: seq<byte>): seq<byte> {
    seq(Max(|c|, offset + |buf|), k requires k >= 0 =>
      if offset <= k < offset + |buf| then buf[k - offset] else if k < |c| then c[k] else 0)
  }

  function Slice(c: seq<byte>, offset: nat, len: nat): seq<byte> {
    if offset >= |c| then [] else c[offset..Min(offset + len, |c|)]
  }

  /** Reading back the written range gives the buffer; every range that misses it reads as before, or zero in the
      gap. */
  lemma ReadAfterWrite(c: seq<byte>, offset: nat, buf: seq<byte>, at: nat, len: nat)
    ensures Slice(Written(c, offset, buf), offset, |buf|) == buf
    ensures at + len <= offset && at + len <= |c| ==> Slice(Written(c, offset, buf), at, len) == Slice(c, at, len)
    ensures at >= offset + |buf| ==> Slice(Written(c, offset, buf), at, len) == Slice(c, at, len)
    ensures |c| <= at && at + len <= offset ==> |buf| > 0 ==> Slice(Written(c, offset, buf), at, len) == Zeros(len)
    ensures Written(Written(c, offset, buf), offset, buf) == Written(c, offset, buf)
  {
    var w := Written(c, offset, buf);
    assert |w| == Max(|c|, offset + |buf|);
    if |buf| > 0 { assert w[offset..offset + |buf|] == buf; }
    if at < |c| {
      var end := Min(at + len, |c|);
      if at + len <= offset && at + len <= |c| { assert w[at..end] == c[at..end]; }
      if at >= offset + |buf| { assert |w| == |c| && w[at..end] == c[at..end]; }
    } else if at + len <= offset && |buf| > 0 {
      assert w[at..at + len] == Zeros(len);
    }
  }

  // ----- blocks of a file -----

  lemma BlockInFile(size: nat, k: nat)
    requires k < size
    ensures Pos(k / 512) < TotalBlocks(size) && !IsIndex(Pos(k / 512))
  {
    hide Pos, Total, IsIndex;
    TotalIsNextPosition(k / 512 + 1);
    TotalIsNextPosition(k / 512);
    TotalMonotone(k / 512 + 1, DataBlocks(size));
  }

  lemma PosInjective(i: nat, j: nat)
    requires Pos(i) == Pos(j)
    ensures i == j
  {
    hide Pos;
    if i < j { PosMonotone(i, j); } else if j < i { PosMonotone(j, i); }
  }

  /** Changing data blocks or blocks outside the list leaves the tree alone. */
  lemma RepKept(node: Node, b0: Blocks, b1: Blocks, s: seq<u32>)
    requires Rep(node, b0, s) && b0.Keys == b1.Keys
    requires forall p :: 0 <= p < |s| && IsIndex(p) ==> b1[s[p]] == b0[s[p]]
    ensures Rep(node, b1, s)
  {
    hide Word, IsIndex, Parent, WordOf;
    forall p | 0 <= p < |s| ensures Stored(node, b1, s, p) == s[p] {
      RepAt(node, b0, s, p);
      if !Inline(p) { ParentFacts(p); }
    }
  }

  /** The list gains zero-filled blocks and index blocks are written: no byte of the file changes. */
  lemma BytesKept(b0: Blocks, b1: Blocks, s: seq<u32>, ids: seq<u32>, k: nat)
    requires Distinct(s + ids) && Within(s + ids, b0) && OnlyIndex(b0, b1, s + ids)
    requires forall i :: 0 <= i < |ids| ==> ids[i] in b0 && b0[ids[i]] == ZeroBlock
    ensures ByteAt(b1, s + ids, k) == ByteAt(b0, s, k)
  {
    hide Pos, IsIndex;
    var p, all := Pos(k / 512), s + ids;
    TotalIsNextPosition(k / 512);
    if p < |all| {
      DataUntouched(b0, b1, all, p);
      if p >= |s| { assert all[p] == ids[p - |s|]; }
    }
  }

  lemma DataUntouched(b0: Blocks, b1: Blocks, s: seq<u32>, p: nat)
    requires Distinct(s) && Within(s, b0) && OnlyIndex(b0, b1, s) && p < |s| && !IsIndex(p)
    ensures s[p] in b1 && b1[s[p]] == b0[s[p]]
  {
    hide IsIndex;
  }

  /** `end_current_block`: the end of the block that holds `start`, or `end` if that comes first. */
  function EndOfBlock(start: nat, end: nat): nat { Min((start / BLOCK_SZ + 1) * BLOCK_SZ, end) }

  /** The block that holds byte `k`. */
  function BlockOf(k: nat): nat { k / BLOCK_SZ }

  /** Bytes `start` up to `e` lie in one block. */
  ghost predicate InBlock(start: nat, e: nat) { e <= (start / 512 + 1) * 512 && start % 512 + e - start <= 512 }

  lemma EndFacts(start: nat, end: nat)
    requires start <= end
    ensures var e := EndOfBlock(start, end);
            && start <= e <= end && InBlock(start, e) && (start < end ==> start < e)
            && (e < end ==> BlockOf(e) == BlockOf(start) + 1)
  {
  }

  // ----- reading -----

  /** `read_at`: fills the front of `buf` and returns how much of it. */
  method ReadAt(inode: DiskInode, disk: Disk, offset: nat, buf: array<byte>, ghost s: seq<u32>) returns (n: nat)
    requires FileOk(inode.Tree(), inode.size, disk.blocks, s)
    modifies buf
    ensures n <= buf.Length && buf[..n] == Slice(Content(disk.blocks, s, inode.size), offset, buf.Length)
    ensures buf[n..] == old(buf[..])[n..]
  {
    hide FileOk, Content, Stretch, Slice;
    ghost var was := buf[..];
    var end := Min(offset + buf.Length, inode.size);
    if offset >= end {
      StretchNone(disk.blocks, s, offset, inode.size, buf.Length);
      return 0;
    }
    n := ReadBlocks(inode, disk, offset, end, buf, s);
    StretchIsSlice(disk.blocks, s, inode.size, offset, buf.Length, n);
    Halves(Stretch(disk.blocks, s, offset, n), was);
    assert buf[..n] == buf[..][..n] && buf[n..] == buf[..][n..];
  }

  /** `buf` once the bytes from `offset` up to `end` are in it; the rest is as it `was`. */
  ghost predicate Filled(buf: seq<byte>, blocks: Blocks, s: seq<u32>, offset: nat, end: nat, was: seq<byte>)
    requires offset <= end <= offset + |was|
  {
    && |Stretch(blocks, s, offset, end - offset)| == end - offset
    && buf == Stretch(blocks, s, offset, end - offset) + was[end - offset..]
  }

  /** The loop of `read_at`, up to `end`. */
  method ReadBlocks(inode: DiskInode, disk: Disk, offset: nat, end: nat, buf: array<byte>, ghost s: seq<u32>)
    returns (n: nat)
    requires FileOk(inode.Tree(), inode.size, disk.blocks, s)
    requires offset < end <= inode.size && end <= offset + buf.Length
    modifies buf
    ensures n == end - offset && Filled(buf[..], disk.blocks, s, offset, end, old(buf[..]))
  {
    hide FileOk, Filled, EndOfBlock, BlockOf, InBlock;
    ghost var was := buf[..];
    var start := offset;
    var startBlock := BlockOf(start);
    n := 0;
    NothingFilled(was, disk.blocks, s, offset);
    while true
      invariant offset <= start < end && n == start - offset && startBlock == BlockOf(start)
      invariant Filled(buf[..], disk.blocks, s, offset, start, was)
      decreases end - start
    {
      EndFacts(start, end);
      var endCurrent := EndOfBlock(start, end);
      ReadBlock(inode, disk, offset, start, endCurrent, startBlock, buf, was, s);
      n := n + endCurrent - start;
      if endCurrent == end { break; }
      startBlock := startBlock + 1;
      start := endCurrent;
    }
  }

  lemma NothingFilled(was: seq<byte>, blocks: Blocks, s: seq<u32>, offset: nat)
    ensures Filled(was, blocks, s, offset, offset, was)
  {
    hide Stretch;
    StretchNone(blocks, s, offset, 0, 0);
  }

  /** One round of the loop of `read_at`. */
  method ReadBlock(inode: DiskInode, disk: Disk, offset: nat, start: nat, end: nat, block: nat, buf: array<byte>,
                   ghost was: seq<byte>, ghost s: seq<u32>)
    requires FileOk(inode.Tree(), inode.size, disk.blocks, s) && |was| == buf.Length
    requires offset <= start < end <= inode.size && end - offset <= buf.Length && block == BlockOf(start)
    requires InBlock(start, end) && Filled(buf[..], disk.blocks, s, offset, start, was)
    modifies buf
    ensures Filled(buf[..], disk.blocks, s, offset, end, was)
  {
    hide Pos, Total, Rep, ZeroFrom, ByteAt, Content, Stretch;
    BlockInFile(inode.size, start);
    BlockIdIsIth(inode.Tree(), disk.blocks, s, block);
    var found := inode.GetBlockId(block, disk);
    var id := found.value;
    var src := disk.blocks[id][start % BLOCK_SZ..start % BLOCK_SZ + end - start];
    CopyOut(buf, start - offset, src);
    StretchGrows(disk.blocks, s, offset, start, end);
    Pasted(Stretch(disk.blocks, s, offset, start - offset), was, src);
  }

  lemma Halves(front: seq<byte>, was: seq<byte>)
    requires |front| <= |was|
    ensures (front + was[|front|..])[..|front|] == front && (front + was[|front|..])[|front|..] == was[|front|..]
  {
  }

  /** `n` bytes of the file from `offset` on. */
  function Stretch(blocks: Blocks, s: seq<u32>, offset: nat, n: nat): seq<byte> {
    Content(blocks, s, offset + n)[offset..]
  }

  lemma StretchNone(blocks: Blocks, s: seq<u32>, offset: nat, size: nat, len: nat)
    ensures Stretch(blocks, s, offset, 0) == []
    ensures |Content(blocks, s, size)| == size
    ensures (offset >= Min(offset + len, size) ==> Slice(Content(blocks, s, size), offset, len) == [])
  {
    hide ByteAt;
  }

  lemma StretchIsSlice(blocks: Blocks, s: seq<u32>, size: nat, offset: nat, len: nat, n: nat)
    requires offset < size && offset + n == Min(offset + len, size)
    ensures |Stretch(blocks, s, offset, n)| == n
    ensures Slice(Content(blocks, s, size), offset, len) == Stretch(blocks, s, offset, n)
  {
    hide ByteAt, Content;
    ContentAt(blocks, s, offset + n);
    ContentAt(blocks, s, size);
  }

  /** The next stretch within one block. */
  lemma StretchGrows(blocks: Blocks, s: seq<u32>, offset: nat, start: nat, end: nat)
    requires Pos(start / 512) < |s| && s[Pos(start / 512)] in blocks && offset <= start < end <= (start / 512 + 1) * 512
    ensures |Stretch(blocks, s, offset, start - offset)| == start - offset
    ensures Stretch(blocks, s, offset, end - offset) ==
            Stretch(blocks, s, offset, start - offset)
            + blocks[s[Pos(start / 512)]][start % 512..start % 512 + end - start]
  {
    hide Pos, ByteAt;
    BytesOfBlock(blocks, s, start, end);
    var src := blocks[s[Pos(start / 512)]][start % 512..start % 512 + end - start];
    var all, front := Stretch(blocks, s, offset, end - offset), Stretch(blocks, s, offset, start - offset) + src;
    forall i | 0 <= i < |all| ensures all[i] == front[i] {
      if i >= start - offset { assert ByteAt(blocks, s, offset + i) == src[offset + i - start]; }
    }
  }

  lemma Pasted(front: seq<byte>, was: seq<byte>, src: seq<byte>)
    requires |front| + |src| <= |was|
    ensures var buf := front + was[|front|..];
            buf[..|front|] + src + buf[|front| + |src|..] == front + src + was[|front| + |src|..]
  {
  }

  /** `copy_from_slice` into `buf[at..at + |src|]`. */
  method CopyOut(buf: array<byte>, at: nat, src: seq<byte>)
    requires at + |src| <= buf.Length
    modifies buf
    ensures buf[..] == old(buf[..])[..at] + src + old(buf[..])[at + |src|..]
  {
    forall i | at <= i < at + |src| { buf[i] := src[i - at]; }
  }

  lemma BytesOfBlock(blocks: Blocks, s: seq<u32>, start: nat, end: nat)
    requires Pos(start / 512) < |s| && s[Pos(start / 512)] in blocks && start < end <= (start / 512 + 1) * 512
    ensures forall k :: start <= k < end ==>
              ByteAt(blocks, s, k) == blocks[s[Pos(start / 512)]][start % 512 + k - start]
  {
    hide Pos;
    assert forall k :: start <= k < end ==> k / 512 == start / 512 && k % 512 == start % 512 + k - start;
  }

  lemma ContentAt(blocks: Blocks, s: seq<u32>, size: nat)
    ensures |Content(blocks, s, size)| == size
    ensures forall k :: 0 <= k < size ==> Content(blocks, s, size)[k] == ByteAt(blocks, s, k)
  {
  }

  // ----- writing -----

  function Splice(b: Block, at: nat, src: seq<byte>): Block
    requires at + |src| <= 512
  {
    b[..at] + src + b[at + |src|..]
  }

  /** The tree stays, and the file's bytes change where the source went and nowhere else. */
  ghost predicate WroteBlock(node: Node, b0: Blocks, b1: Blocks, s: seq<u32>, start: nat, src: seq<byte>) {
    && Rep(node, b1, s) && OnlyIn(b0, b1, s)
    && forall k: nat :: ByteAt(b1, s, k) == if start <= k < start + |src| then src[k - start] else ByteAt(b0, s, k)
  }

  /** Writing one data block. */
  lemma BlockWritten(node: Node, blocks: Blocks, s: seq<u32>, start: nat, src: seq<byte>)
    requires Rep(node, blocks, s) && Pos(start / 512) < |s| && start % 512 + |src| <= 512
    ensures s[Pos(start / 512)] in blocks
    ensures var id := s[Pos(start / 512)];
            var after := blocks[id := Splice(blocks[id], start % 512, src)];
            WroteBlock(node, blocks, after, s, start, src)
  {
    hide Pos, Rep, IsIndex;
    var p := Pos(start / 512);
    RepAt(node, blocks, s, p);
    RepDirect(node, blocks, s);
    TotalIsNextPosition(start / 512);
    var id := s[p];
    var after := blocks[id := Splice(blocks[id], start % 512, src)];
    RepKept(node, blocks, after, s);
    forall k: nat
      ensures ByteAt(after, s, k) == if start <= k < start + |src| then src[k - start] else ByteAt(blocks, s, k)
    {
      ByteWritten(blocks, s, start, src, k);
    }
  }

  lemma ByteWritten(blocks: Blocks, s: seq<u32>, start: nat, src: seq<byte>, k: nat)
    requires Distinct(s) && Within(s, blocks) && Pos(start / 512) < |s| && start % 512 + |src| <= 512
    ensures var id := s[Pos(start / 512)];
            var after := blocks[id := Splice(blocks[id], start % 512, src)];
            ByteAt(after, s, k) == if start <= k < start + |src| then src[k - start] else ByteAt(blocks, s, k)
  {
    hide Pos;
    if k / 512 == start / 512 {
      assert k - start == k % 512 - start % 512;
    } else {
      assert !(start <= k < start + |src|);
      if Pos(k / 512) == Pos(start / 512) { PosInjective(k / 512, start / 512); }
    }
  }

  /** Only blocks of the list were written. */
  ghost predicate OnlyIn(b0: Blocks, b1: Blocks, s: seq<u32>) {
    b1.Keys == b0.Keys && forall b :: b in b0 && b !in s ==> b1[b] == b0[b]
  }

  /** `get_block_id(i)` names a block of the device, of the file or not. */
  ghost predicate OnDevice(node: Node, blocks: Blocks, i: nat) {
    |node.direct| == 28 && BlockId(node, blocks, i).Some? && BlockId(node, blocks, i).value in blocks
  }

  lemma InFileOnDevice(node: Node, blocks: Blocks, s: seq<u32>, size: nat, k: nat)
    requires Rep(node, blocks, s) && |s| == TotalBlocks(size) && k / 512 < DataBlocks(size)
    ensures OnDevice(node, blocks, k / 512)
  {
    hide Pos, Total, Rep, BlockId;
    ExistingBlock(size, k);
    BlockIdIsIth(node, blocks, s, k / 512);
  }

  /** One round of the loop of `write_at`; a round that writes nothing may meet a block that is not the file's. */
  lemma RoundWritten(node: Node, blocks: Blocks, s: seq<u32>, size: nat, start: nat, src: seq<byte>)
    requires Rep(node, blocks, s) && |s| == TotalBlocks(size) && start % 512 + |src| <= 512
    requires OnDevice(node, blocks, start / 512) && (src == [] || start < size)
    ensures var id := BlockId(node, blocks, start / 512).value;
            WroteBlock(node, blocks, blocks[id := Splice(blocks[id], start % 512, src)], s, start, src)
  {
    hide Pos, Total, Rep, BlockId, ByteAt, WroteBlock, Splice;
    if src == [] {
      SpliceNothing(blocks, BlockId(node, blocks, start / 512).value, start % 512);
      WroteNothing(node, blocks, s, start);
    } else {
      BlockInFile(size, start);
      BlockIdIsIth(node, blocks, s, start / 512);
      BlockWritten(node, blocks, s, start, src);
    }
  }

  lemma SpliceNothing(blocks: Blocks, id: u32, at: nat)
    requires id in blocks && at <= 512
    ensures blocks[id := Splice(blocks[id], at, [])] == blocks
  {
    assert Splice(blocks[id], at, []) == blocks[id];
  }

  lemma WroteNothing(node: Node, blocks: Blocks, s: seq<u32>, start: nat)
    requires Rep(node, blocks, s)
    ensures WroteBlock(node, blocks, blocks, s, start, [])
  {
    hide Rep, ByteAt;
  }

  lemma WroteMore(node: Node, b0: Blocks, b1: Blocks, b2: Blocks, s: seq<u32>, offset: nat, buf: seq<byte>, n: nat,
                  m: nat)
    requires n <= m <= |buf| && WroteBlock(node, b0, b1, s, offset, buf[..n])
    requires WroteBlock(node, b1, b2, s, offset + n, buf[n..m])
    ensures WroteBlock(node, b0, b2, s, offset, buf[..m])
  {
    hide Rep, ByteAt;
  }

  /** Bytes inside the file are in blocks of the device, however many rounds were written. */
  lemma StillOnDevice(node: Node, b0: Blocks, b1: Blocks, s: seq<u32>, size: nat, k: nat, start: nat, src: seq<byte>)
    requires WroteBlock(node, b0, b1, s, start, src) && |s| == TotalBlocks(size) && k < size
    ensures Rep(node, b1, s) && OnDevice(node, b1, BlockOf(k))
  {
    hide TotalBlocks, Rep, OnDevice, ByteAt, OnlyIn;
    InFileOnDevice(node, b1, s, size, k);
  }

  method WriteBlock(inode: DiskInode, disk: Disk, id: u32, start: nat, src: seq<byte>, ghost s: seq<u32>)
    requires Rep(inode.Tree(), disk.blocks, s) && |s| == TotalBlocks(inode.size) && InBlock(start, start + |src|)
    requires OnDevice(inode.Tree(), disk.blocks, BlockOf(start)) && (src == [] || start < inode.size)
    requires BlockId(inode.Tree(), disk.blocks, BlockOf(start)) == Some(id)
    modifies disk
    ensures WroteBlock(inode.Tree(), old(disk.blocks), disk.blocks, s, start, src)
    ensures src == [] ==> disk.blocks == old(disk.blocks)
  {
    hide TotalBlocks, Rep, BlockId, WroteBlock, Splice;
    if src == [] { SpliceNothing(disk.blocks, id, start % 512); }
    RoundWritten(inode.Tree(), disk.blocks, s, inode.size, start, src);
    disk.blocks := disk.blocks[id := Splice(disk.blocks[id], start % BLOCK_SZ, src)];
  }

  /** `DiskInode::write_at`: up to the current size.  It fails if the offset is past the end, which the source asserts,
      or if the first block it looks up is not on the device. */
  method WriteAt(inode: DiskInode, disk: Disk, offset: nat, buf: seq<byte>, ghost s: seq<u32>)
    returns (ok: bool, n: nat)
    requires Rep(inode.Tree(), disk.blocks, s) && |s| == TotalBlocks(inode.size)
    modifies disk
    ensures ok <==> offset <= inode.size && OnDevice(inode.Tree(), old(disk.blocks), BlockOf(offset))
    ensures !ok || buf == [] ==> disk.blocks == old(disk.blocks)
    ensures ok ==> n == Min(|buf|, inode.size - offset)
    ensures ok ==> WroteBlock(inode.Tree(), old(disk.blocks), disk.blocks, s, offset, buf[..n])
  {
    hide Pos, Total, Rep, WroteBlock, Splice, EndOfBlock, BlockOf, InBlock, BlockId, DataBlocks;
    var end := Min(offset + |buf|, inode.size);
    var start := offset;
    n := 0;
    if start > end { return false, 0; }
    var startBlock := BlockOf(start);
    WroteNothing(inode.Tree(), disk.blocks, s, offset);
    RepDirect(inode.Tree(), disk.blocks, s);
    assert buf[..0] == [];
    while true
      invariant offset <= start <= end && n == start - offset && startBlock == BlockOf(start)
      invariant start == offset ==> disk.blocks == old(disk.blocks)
      invariant start > offset ==> start < end && OnDevice(inode.Tree(), old(disk.blocks), BlockOf(offset))
      invariant WroteBlock(inode.Tree(), old(disk.blocks), disk.blocks, s, offset, buf[..n])
      decreases end - start
    {
      var endCurrent := EndOfBlock(start, end);
      EndFacts(start, end);
      if start < end {
        StillOnDevice(inode.Tree(), old(disk.blocks), disk.blocks, s, inode.size, start, offset, buf[..n]);
      }
      var found := inode.GetBlockId(startBlock, disk);
      if found.None? || found.value !in disk.blocks { return false, n; }
      ghost var before := disk.blocks;
      var src := buf[n..n + endCurrent - start];
      WriteBlock(inode, disk, found.value, start, src, s);
      WroteMore(inode.Tree(), old(disk.blocks), before, disk.blocks, s, offset, buf, n, n + endCurrent - start);
      n := n + endCurrent - start;
      if endCurrent == end { return true, n; }
      startBlock := startBlock + 1;
      start := endCurrent;
    }
  }

  lemma ExistingBlock(size: nat, k: nat)
    requires k / 512 < DataBlocks(size)
    ensures Pos(k / 512) < TotalBlocks(size)
  {
    hide Pos, Total;
    TotalIsNextPosition(k / 512 + 1);
    TotalMonotone(k / 512 + 1, DataBlocks(size));
  }

  /** A write of `len` bytes at `offset` begins in a block of the file, once the file has grown. */
  predicate InFile(size: nat, offset: nat, len: nat) { len > 0 || offset < size || offset % BLOCK_SZ != 0 }

  /** `Inode::write_at`, given the blocks that `alloc_data` hands out: free, hence zero-filled. */
  method WriteFile(inode: DiskInode, disk: Disk, offset: nat, buf: seq<byte>, newBlocks: seq<u32>, ghost s: seq<u32>)
    returns (ok: bool, n: nat, ghost s1: seq<u32>)
    requires FileOk(inode.Tree(), inode.size, disk.blocks, s)
    requires |newBlocks| == TotalBlocks(Max(inode.size, offset + |buf|)) - TotalBlocks(inode.size)
    requires Distinct(s + newBlocks)
    requires forall i :: 0 <= i < |newBlocks| ==> newBlocks[i] in disk.blocks && disk.blocks[newBlocks[i]] == ZeroBlock
    modifies disk, inode`size, inode`direct, inode`indirect1, inode`indirect2
    ensures ok <==> offset + |buf| <= MAX_SIZE && (InFile(old(inode.size), offset, |buf|)
                    || OnDevice(inode.Tree(), disk.blocks, BlockOf(offset)))
    ensures ok ==> n == |buf| && s1 == s + newBlocks && inode.size == Max(old(inode.size), offset + |buf|)
    ensures ok ==> FileOk(inode.Tree(), inode.size, disk.blocks, s1) && OnlyIn(old(disk.blocks), disk.blocks, s1)
    ensures ok ==>
              Content(disk.blocks, s1, inode.size) == Written(old(Content(disk.blocks, s, inode.size)), offset, buf)
  {
    hide Rep, Pos, Total, ByteAt, Content, Distinct, OnDevice;
    s1 := s + newBlocks;
    if offset + |buf| > MAX_SIZE { return false, 0, s1; }
    ghost var b0 := disk.blocks;
    ContentAt(b0, s, inode.size);
    AllWithin(inode.Tree(), b0, s, newBlocks);
    if offset + |buf| >= inode.size {
      inode.IncreaseSize(offset + |buf|, newBlocks, disk, s);
    } else {
      assert s1 == s;
      OnlyIndexRefl(b0, s1);
    }
    ghost var b1 := disk.blocks;
    forall k: nat ensures ByteAt(b1, s1, k) == ByteAt(b0, s, k) { BytesKept(b0, b1, s, newBlocks, k); }
    OnlyIndexIn(b0, b1, s1);
    FirstBlockExists(old(inode.size), offset, |buf|);
    ok, n := WriteAt(inode, disk, offset, buf, s1);
    if InFile(old(inode.size), offset, |buf|) { InFileOnDevice(inode.Tree(), b1, s1, inode.size, offset); }
    if !ok { return; }
    assert buf[..n] == buf;
    ContentAt(disk.blocks, s1, inode.size);
  }

  /** The first block `write_at` asks for belongs to the file, except for an empty write at a block boundary at or past
      the end: there the loop's first round looks up a block the file does not have. */
  lemma FirstBlockExists(size: nat, offset: nat, len: nat)
    ensures Pos(offset / 512) < TotalBlocks(Max(size, offset + len)) <==> InFile(size, offset, len)
    ensures Pos(offset / 512) < TotalBlocks(Max(size, offset + len)) <==>
            offset / 512 < DataBlocks(Max(size, offset + len))
  {
    hide Pos, Total;
    var end := Max(size, offset + len);
    if offset / 512 < DataBlocks(end) {
      ExistingBlock(end, offset);
    } else {
      TotalIsNextPosition(DataBlocks(end));
      TotalIsNextPosition(offset / 512 + 1);
      TotalMonotone(DataBlocks(end), offset / 512);
      if DataBlocks(end) > 0 { PosMonotone(DataBlocks(end) - 1, offset / 512); }
      TotalZero();
    }
  }

  const EFS_MAGIC: u32 := 0x3b80_0001

  /** Block 0 after `SuperBlock::initialize`. */
  function SuperBlock(total: u32, inodeBitmap: u32, inodeArea: u32, dataBitmap: u32, dataArea: u32): Block {
    var front := WithWord(WithWord(WithWord(ZeroBlock, 0, EFS_MAGIC), 1, total), 2, inodeBitmap);
    WithWord(WithWord(WithWord(front, 3, inodeArea), 4, dataBitmap), 5, dataArea)
  }

  lemma SuperBlockMagic(total: u32, inodeBitmap: u32, inodeArea: u32, dataBitmap: u32, dataArea: u32)
    ensures Word(SuperBlock(total, inodeBitmap, inodeArea, dataBitmap, dataArea), 0) == EFS_MAGIC
  {
    hide Word, WithWord;
    var front := WithWord(WithWord(WithWord(ZeroBlock, 0, EFS_MAGIC), 1, total), 2, inodeBitmap);
    WordAfter(WithWord(WithWord(front, 3, inodeArea), 4, dataBitmap), 5, dataArea, 0);
    WordAfter(WithWord(front, 3, inodeArea), 4, dataBitmap, 0);
    WordAfter(front, 3, inodeArea, 0);
    WordAfter(WithWord(WithWord(ZeroBlock, 0, EFS_MAGIC), 1, total), 2, inodeBitmap, 0);
    WordAfter(WithWord(ZeroBlock, 0, EFS_MAGIC), 1, total, 0);
    WordAfter(ZeroBlock, 0, EFS_MAGIC, 0);
  }

  /** The six words of the super block, in order. */
  lemma SuperBlockWords(total: u32, inodeBitmap: u32, inodeArea: u32, dataBitmap: u32, dataArea: u32, k: nat)
    requires k < 6
    ensures Word(SuperBlock(total, inodeBitmap, inodeArea, dataBitmap, dataArea), k) ==
            [0x3b80_0001, total, inodeBitmap, inodeArea, dataBitmap, dataArea][k]
  {
    hide Word, WithWord;
    var b0 := WithWord(ZeroBlock, 0, EFS_MAGIC);
    var b1 := WithWord(b0, 1, total);
    var b2 := WithWord(b1, 2, inodeBitmap);
    var b3 := WithWord(b2, 3, inodeArea);
    var b4 := WithWord(b3, 4, dataBitmap);
    WordAfter(b4, 5, dataArea, k);
    WordAfter(b3, 4, dataBitmap, k);
    WordAfter(b2, 3, inodeArea, k);
    WordAfter(b1, 2, inodeBitmap, k);
    WordAfter(b0, 1, total, k);
    WordAfter(ZeroBlock, 0, EFS_MAGIC, k);
  }

  /** What an empty write past the last block looks up where no id was ever stored: with a direct index the super block,
      which it leaves as it is; where an index block is missing, a block named by the super block's magic. */
  lemma EmptyWriteLooksUp(node: Node, blocks: Blocks, total: u32, sizes: (u32, u32, u32, u32))
    requires |node.direct| == 28 && 0 in blocks && blocks[0] == SuperBlock(total, sizes.0, sizes.1, sizes.2, sizes.3)
    ensures forall i :: 0 <= i < 28 && node.direct[i] == 0 ==> OnDevice(node, blocks, i)
    ensures node.indirect1 == 0 ==> (OnDevice(node, blocks, 28) <==> EFS_MAGIC in blocks)
    ensures node.indirect2 == 0 && EFS_MAGIC !in blocks ==> !OnDevice(node, blocks, 156)
  {
    hide Word;
    SuperBlockMagic(total, sizes.0, sizes.1, sizes.2, sizes.3);
  }

  lemma AllWithin(node: Node, blocks: Blocks, s: seq<u32>, ids: seq<u32>)
    requires Rep(node, blocks, s) && Within(ids, blocks)
    ensures Within(s + ids, blocks)
  {
  }

  lemma OnlyIndexIn(b0: Blocks, b1: Blocks, s: seq<u32>)
    requires OnlyIndex(b0, b1, s)
    ensures OnlyIn(b0, b1, s)
  {
  }

  /** `blocks_num_needed` when something is to end at `end`. */
  function Needed(size: nat, end: nat): nat {
    SizeNeeds(size, end);
    TotalBlocks(Max(size, end)) - TotalBlocks(size)
  }

  lemma SizeNeeds(size: nat, end: nat)
    ensures TotalBlocks(size) <= TotalBlocks(Max(size, end))
  {
    hide Total;
    TotalMonotone(size, Max(size, end));
    TotalMonotone(DataBlocks(size), DataBlocks(Max(size, end)));
  }
}
