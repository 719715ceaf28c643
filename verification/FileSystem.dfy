/**
 Block ownership (easy-fs/src/efs.rs, easy-fs/src/vfs.rs): every data and
 index block belongs to one live inode and is marked in the data bitmap, and
 every free block is zero.  Operations on one file move blocks between the
 bitmap and that file's list and leave every other file's bytes alone.
 */
module FileSystem {
  import opened Wrappers
  import opened Sequences
  import opened BlockDevice
  import opened IndexTree
  import opened FileBytes
  import opened B = Bitmap
  import L = Layout

  // ----- values -----

  /** A disk inode as stored in the inode area. */
  datatype File = File(node: Node, size: nat, isDir: bool, parent: u32)

  /** What a user of the file system sees of an inode. */
  datatype Doc = Doc(isDir: bool, parent: u32, bytes: seq<byte>)
  type Docs = map<u32, Doc>

  type Files = map<u32, File>
  type Lists = map<u32, seq<u32>>
  type Bits = seq<BitmapBlock>

  /** Block `b` has a bit in the data bitmap, and it is set. */
  predicate IsMarked(bits: Bits, start: nat, b: u32) {
    start <= b < start + |bits| * BLOCK_BITS && Marked(bits, b - start)
  }

  /** Every inode's tree stands for its list. */
  ghost predicate FilesOk(files: Files, lists: Lists, blocks: Blocks) {
    lists.Keys == files.Keys && forall i :: i in files ==> FileOk(files[i].node, files[i].size, blocks, lists[i])
  }

  /** No block has two owners, and every owned block is marked. */
  ghost predicate Owned(lists: Lists, bits: Bits, start: nat) {
    && (forall i, p :: i in lists && 0 <= p < |lists[i]| ==> IsMarked(bits, start, lists[i][p]))
    && forall i, j :: i in lists && j in lists && i != j ==> Apart(lists[i], lists[j])
  }

  ghost predicate Apart(s: seq<u32>, t: seq<u32>) { forall p :: 0 <= p < |s| ==> s[p] !in t }

  /** Unmarked blocks hold zeros. */
  ghost predicate FreeZero(blocks: Blocks, bits: Bits, start: nat) {
    forall b :: b in blocks && start <= b < start + |bits| * BLOCK_BITS && !Marked(bits, b - start) ==>
        blocks[b] == ZeroBlock
  }

  /** Every marked block is owned: nothing has leaked. */
  ghost predicate Exact(lists: Lists, bits: Bits, start: nat) {
    forall b :: IsMarked(bits, start, b) ==> HasOwner(lists, b)
  }

  ghost predicate HasOwner(lists: Lists, b: u32) { exists i :: i in lists && b in lists[i] }

  ghost predicate FsOk(files: Files, lists: Lists, blocks: Blocks, bits: Bits, start: nat) {
    FilesOk(files, lists, blocks) && Owned(lists, bits, start) && FreeZero(blocks, bits, start)
  }

  /** All inodes as their users see them. */
  ghost function ViewOf(files: Files, lists: Lists, blocks: Blocks): Docs
    requires lists.Keys == files.Keys
  {
    map i | i in files :: Doc(files[i].isDir, files[i].parent, Content(blocks, lists[i], files[i].size))
  }

  lemma ViewAt(files: Files, lists: Lists, blocks: Blocks, i: u32)
    requires lists.Keys == files.Keys && i in files
    ensures i in ViewOf(files, lists, blocks)
    ensures ViewOf(files, lists, blocks)[i] == Doc(files[i].isDir, files[i].parent,
            Content(blocks, lists[i], files[i].size))
  {
  }

  /** One inode's bytes change, the others keep theirs. */
  lemma ViewChanges(files: Files, lists: Lists, blocks: Blocks, i: u32, f: File, s: seq<u32>, after: Blocks)
    requires lists.Keys == files.Keys
    requires forall j :: j in files && j != i ==>
              Content(after, lists[j], files[j].size) == Content(blocks, lists[j], files[j].size)
    ensures ViewOf(files[i := f], lists[i := s], after) ==
            ViewOf(files, lists, blocks)[i := Doc(f.isDir, f.parent, Content(after, s, f.size))]
  {
    hide Content;
  }

  // ----- marking and clearing bits -----

  /** The bits of `ids` and no others were set. */
  ghost predicate Taken(bits: Bits, after: Bits, start: nat, ids: seq<u32>) {
    && |after| == |bits|
    && forall b :: IsMarked(after, start, b) <==> IsMarked(bits, start, b) || b in ids
  }

  /** The bits of `ids` and no others were cleared. */
  ghost predicate Freed(bits: Bits, after: Bits, start: nat, ids: seq<u32>) {
    && |after| == |bits|
    && forall b :: IsMarked(after, start, b) <==> IsMarked(bits, start, b) && b !in ids
  }

  /** Fresh ids: unmarked, hence owned by nobody, and zero. */
  ghost predicate Fresh(ids: seq<u32>, blocks: Blocks, bits: Bits, start: nat) {
    && Distinct(ids) && forall i :: 0 <= i < |ids| ==>
         ids[i] in blocks && start <= ids[i] < start + |bits| * BLOCK_BITS && !Marked(bits, ids[i] - start)
  }

  lemma FreshIsApart(files: Files, lists: Lists, blocks: Blocks, bits: Bits, start: nat, ids: seq<u32>, i: u32)
    requires FsOk(files, lists, blocks, bits, start) && Fresh(ids, blocks, bits, start) && i in lists
    ensures Distinct(lists[i] + ids) && Apart(lists[i], ids) && Apart(ids, lists[i])
    ensures forall k :: 0 <= k < |ids| ==> ids[k] in blocks && blocks[ids[k]] == ZeroBlock
  {
    hide Marked, FileOk;
    OwnedFile(files, lists, blocks, bits, start, i);
    hide Owned, FilesOk;
    UnmarkedApart(lists[i], ids, bits, start, blocks);
    DistinctConcat(lists[i], ids);
  }

  lemma UnmarkedApart(s: seq<u32>, ids: seq<u32>, bits: Bits, start: nat, blocks: Blocks)
    requires Fresh(ids, blocks, bits, start) && forall k :: 0 <= k < |s| ==> IsMarked(bits, start, s[k])
    ensures Apart(s, ids) && Apart(ids, s)
  {
    hide Marked;
    assert forall k :: 0 <= k < |ids| ==> !IsMarked(bits, start, ids[k]);
  }

  lemma DistinctConcat(s: seq<u32>, t: seq<u32>)
    requires Distinct(s) && Distinct(t) && Apart(s, t)
    ensures Distinct(s + t)
  {
  }

  /** A file none of whose blocks was written keeps its tree and its bytes. */
  lemma OthersKept(f: File, blocks: Blocks, after: Blocks, s: seq<u32>, t: seq<u32>)
    requires FileOk(f.node, f.size, blocks, s) && OnlyIn(blocks, after, t) && Apart(s, t)
    ensures FileOk(f.node, f.size, after, s)
    ensures Content(after, s, f.size) == Content(blocks, s, f.size)
  {
    hide Pos, Total, IsIndex;
    assert forall p :: 0 <= p < |s| ==> s[p] in blocks && after[s[p]] == blocks[s[p]];
    RepKept(f.node, blocks, after, s);
    assert forall k: nat :: ByteAt(after, s, k) == ByteAt(blocks, s, k);
    ContentAt(after, s, f.size);
    ContentAt(blocks, s, f.size);
  }

  /** A file grows by fresh blocks. */
  lemma GrowKeeps(files: Files, lists: Lists, blocks: Blocks, bits: Bits, start: nat,
                  i: u32, f: File, ids: seq<u32>, after: Blocks, bits1: Bits)
    requires FsOk(files, lists, blocks, bits, start) && i in files && Fresh(ids, blocks, bits, start)
    requires OnlyIn(blocks, after, lists[i] + ids) && FileOk(f.node, f.size, after, lists[i] + ids)
    requires Taken(bits, bits1, start, ids)
    ensures FsOk(files[i := f], lists[i := lists[i] + ids], after, bits1, start)
    ensures Exact(lists, bits, start) <==> Exact(lists[i := lists[i] + ids], bits1, start)
    ensures ViewOf(files[i := f], lists[i := lists[i] + ids], after) ==
            ViewOf(files, lists, blocks)[i := Doc(f.isDir, f.parent, Content(after, lists[i] + ids, f.size))]
  {
    hide FileOk, Content, Marked, ViewOf;
    var lists1 := lists[i := lists[i] + ids];
    forall j | j in files && j != i
      ensures FileOk(files[j].node, files[j].size, after, lists[j])
      ensures Content(after, lists[j], files[j].size) == Content(blocks, lists[j], files[j].size)
      ensures Apart(lists[j], lists[i] + ids) && Apart(lists[i] + ids, lists[j])
    {
      FreshIsApart(files, lists, blocks, bits, start, ids, j);
      OthersKept(files[j], blocks, after, lists[j], lists[i] + ids);
    }
    OwnedGrows(lists, bits, bits1, start, i, ids);
    FreeZeroGrows(files, lists, blocks, bits, start, i, ids, after, bits1);
    assert forall b :: b in ids ==> !IsMarked(bits, start, b);
    ExactGrows(lists, bits, bits1, start, i, ids);
    ViewChanges(files, lists, blocks, i, f, lists[i] + ids, after);
  }

  lemma OwnedGrows(lists: Lists, bits: Bits, bits1: Bits, start: nat, i: u32, ids: seq<u32>)
    requires Owned(lists, bits, start) && i in lists && Taken(bits, bits1, start, ids)
    requires forall j :: j in lists && j != i ==> Apart(lists[j], lists[i] + ids) && Apart(lists[i] + ids, lists[j])
    ensures Owned(lists[i := lists[i] + ids], bits1, start)
  {
    hide IsMarked;
    var lists1 := lists[i := lists[i] + ids];
    forall j, p | j in lists1 && 0 <= p < |lists1[j]| ensures IsMarked(bits1, start, lists1[j][p]) {
      if j == i && p >= |lists[i]| {
        assert lists1[j][p] == ids[p - |lists[i]|];
      } else {
        assert lists1[j][p] == lists[j][p];
      }
    }
  }

  lemma FreeZeroGrows(files: Files, lists: Lists, blocks: Blocks, bits: Bits, start: nat, i: u32, ids: seq<u32>,
                      after: Blocks, bits1: Bits)
    requires FsOk(files, lists, blocks, bits, start) && i in lists && Taken(bits, bits1, start, ids)
    requires OnlyIn(blocks, after, lists[i] + ids)
    ensures FreeZero(after, bits1, start)
  {
    hide Marked, FilesOk;
    forall b | b in after && start <= b < start + |bits1| * BLOCK_BITS && !Marked(bits1, b - start)
        ensures after[b] == ZeroBlock {
      assert !IsMarked(bits1, start, b);
      assert b !in ids && !IsMarked(bits, start, b);
      assert forall p :: 0 <= p < |lists[i]| ==> IsMarked(bits, start, lists[i][p]);
      assert b !in lists[i];
    }
  }

  /** Taking fresh blocks for a file neither causes nor cures a leak. */
  lemma ExactGrows(lists: Lists, bits: Bits, bits1: Bits, start: nat, i: u32, ids: seq<u32>)
    requires i in lists && Taken(bits, bits1, start, ids) && forall b :: b in ids ==> !IsMarked(bits, start, b)
    ensures Exact(lists, bits, start) <==> Exact(lists[i := lists[i] + ids], bits1, start)
  {
    hide IsMarked;
    var lists1 := lists[i := lists[i] + ids];
    forall b | b !in ids ensures HasOwner(lists1, b) <==> HasOwner(lists, b) {
      if j :| j in lists && b in lists[j] { assert b in lists1[j]; }
      if j :| j in lists1 && b in lists1[j] { assert b in lists[j]; }
    }
    forall b | b in ids ensures HasOwner(lists1, b) { assert b in lists1[i]; }
  }

  /** A file gives all its blocks back, zeroed. */
  lemma ClearKeeps(files: Files, lists: Lists, blocks: Blocks, bits: Bits, start: nat, i: u32, f: File, after: Blocks,
                   bits1: Bits)
    requires FsOk(files, lists, blocks, bits, start) && i in files && FileOk(f.node, f.size, after, [])
    requires OnlyIn(blocks, after, lists[i]) && (forall b :: b in after && b in lists[i] ==> after[b] == ZeroBlock)
    requires Freed(bits, bits1, start, lists[i])
    ensures FsOk(files[i := f], lists[i := []], after, bits1, start)
    ensures Exact(lists, bits, start) <==> Exact(lists[i := []], bits1, start)
    ensures f.size == 0 ==>
              var view := ViewOf(files, lists, blocks);
              ViewOf(files[i := f], lists[i := []], after) == view[i := Doc(f.isDir, f.parent, [])]
  {
    hide FileOk, Content, Marked, ViewOf;
    forall j | j in files && j != i
      ensures FileOk(files[j].node, files[j].size, after, lists[j])
      ensures Content(after, lists[j], files[j].size) == Content(blocks, lists[j], files[j].size)
    {
      OthersKept(files[j], blocks, after, lists[j], lists[i]);
    }
    OwnedShrinks(lists, bits, bits1, start, i);
    FreeZeroShrinks(blocks, after, bits, bits1, start, lists[i]);
    ExactShrinks(lists, bits, bits1, start, i);
    ViewChanges(files, lists, blocks, i, f, [], after);
    ContentAt(after, [], 0);
  }

  lemma OwnedShrinks(lists: Lists, bits: Bits, bits1: Bits, start: nat, i: u32)
    requires Owned(lists, bits, start) && i in lists && Freed(bits, bits1, start, lists[i])
    ensures Owned(lists[i := []], bits1, start)
  {
    hide IsMarked;
    var lists1: Lists := lists[i := []];
    forall j, p | j in lists1 && 0 <= p < |lists1[j]| ensures IsMarked(bits1, start, lists1[j][p]) {
      assert IsMarked(bits, start, lists[j][p]) && Apart(lists[j], lists[i]);
    }
  }

  lemma FreeZeroShrinks(blocks: Blocks, after: Blocks, bits: Bits, bits1: Bits, start: nat, ids: seq<u32>)
    requires FreeZero(blocks, bits, start) && Freed(bits, bits1, start, ids)
    requires OnlyIn(blocks, after, ids) && forall b :: b in after && b in ids ==> after[b] == ZeroBlock
    ensures FreeZero(after, bits1, start)
  {
    hide Marked;
    forall b | b in after && start <= b < start + |bits1| * BLOCK_BITS && !Marked(bits1, b - start)
        ensures after[b] == ZeroBlock {
      assert !IsMarked(bits1, start, b);
    }
  }

  lemma ExactShrinks(lists: Lists, bits: Bits, bits1: Bits, start: nat, i: u32)
    requires i in lists && Freed(bits, bits1, start, lists[i])
    ensures Exact(lists, bits, start) <==> Exact(lists[i := []], bits1, start)
  {
    hide IsMarked;
    var lists1: Lists := lists[i := []];
    forall b | b !in lists[i] ensures HasOwner(lists1, b) <==> HasOwner(lists, b) {
      if j :| j in lists && b in lists[j] { assert b in lists1[j]; }
      if j :| j in lists1 && b in lists1[j] { assert b in lists[j]; }
    }
    forall b | b in lists[i] ensures HasOwner(lists, b) {}
  }

  /** Inodes without blocks own nothing. */
  lemma SameOwners(lists: Lists, lists1: Lists)
    requires forall j :: j in lists && lists[j] != [] ==> j in lists1 && lists1[j] == lists[j]
    requires forall j :: j in lists1 && lists1[j] != [] ==> j in lists && lists1[j] == lists[j]
    ensures forall b :: HasOwner(lists1, b) <==> HasOwner(lists, b)
  {
    forall b ensures HasOwner(lists1, b) <==> HasOwner(lists, b) {
      if j :| j in lists && b in lists[j] { assert b in lists1[j]; }
      if j :| j in lists1 && b in lists1[j] { assert b in lists[j]; }
    }
  }

  /** An inode without blocks appears or disappears. */
  lemma AddKeeps(files: Files, lists: Lists, blocks: Blocks, bits: Bits, start: nat, i: u32, f: File)
    requires FsOk(files, lists, blocks, bits, start) && i !in files && FileOk(f.node, f.size, blocks, [])
    ensures FsOk(files[i := f], lists[i := []], blocks, bits, start)
    ensures Exact(lists, bits, start) <==> Exact(lists[i := []], bits, start)
    ensures f.size == 0 ==>
              var view := ViewOf(files, lists, blocks);
              ViewOf(files[i := f], lists[i := []], blocks) == view[i := Doc(f.isDir, f.parent, [])]
  {
    hide FileOk, IsMarked, FreeZero, Content, ViewOf;
    ViewChanges(files, lists, blocks, i, f, [], blocks);
    ContentAt(blocks, [], 0);
    hide HasOwner;
    SameOwners(lists, lists[i := []]);
  }

  lemma DropKeeps(files: Files, lists: Lists, blocks: Blocks, bits: Bits, start: nat, i: u32)
    requires FsOk(files, lists, blocks, bits, start) && i in files && lists[i] == []
    ensures FsOk(files - {i}, lists - {i}, blocks, bits, start)
    ensures Exact(lists, bits, start) <==> Exact(lists - {i}, bits, start)
    ensures ViewOf(files - {i}, lists - {i}, blocks) == ViewOf(files, lists, blocks) - {i}
  {
    hide FileOk, IsMarked, FreeZero, Content, HasOwner;
    SameOwners(lists, lists - {i});
  }

  /** A directory's size falls; its trailing bytes were zeroed before. */
  lemma ShrinkKeeps(files: Files, lists: Lists, blocks: Blocks, bits: Bits, start: nat, i: u32, size: nat)
    requires FsOk(files, lists, blocks, bits, start) && i in files && size <= files[i].size
    requires ZeroFrom(blocks, lists[i], size)
    ensures TotalBlocks(size) <= |lists[i]|
    ensures FsOk(files[i := files[i].(size := size)], lists[i := lists[i][..TotalBlocks(size)]], blocks, bits, start)
    ensures var doc := ViewOf(files, lists, blocks)[i];
            size <= |doc.bytes| &&
            ViewOf(files[i := files[i].(size := size)], lists[i := lists[i][..TotalBlocks(size)]], blocks) ==
            ViewOf(files, lists, blocks)[i := doc.(bytes := doc.bytes[..size])]
    ensures Exact(lists[i := lists[i][..TotalBlocks(size)]], bits, start) <==>
              Exact(lists, bits, start) && TotalBlocks(size) == |lists[i]|
  {
    hide FileOk, Content, IsMarked, FreeZero, TotalBlocks, ZeroFrom;
    OwnedFile(files, lists, blocks, bits, start, i);
    PrefixFile(files[i], blocks, lists[i], size);
    ViewChanges(files, lists, blocks, i, files[i].(size := size), lists[i][..TotalBlocks(size)], blocks);
    ContentAt(blocks, lists[i], files[i].size);
    OwnedPrefix(lists, bits, start, i, TotalBlocks(size));
    if TotalBlocks(size) == |lists[i]| {
      assert lists[i][..TotalBlocks(size)] == lists[i];
      assert lists[i := lists[i][..TotalBlocks(size)]] == lists;
    } else {
      CutLeaks(lists, bits, start, i, TotalBlocks(size));
    }
  }

  /** A block cut off a list stays marked and belongs to nobody. */
  lemma CutLeaks(lists: Lists, bits: Bits, start: nat, i: u32, n: nat)
    requires Owned(lists, bits, start) && i in lists && n < |lists[i]| && Distinct(lists[i])
    ensures !Exact(lists[i := lists[i][..n]], bits, start)
  {
    hide IsMarked;
    var lists1 := lists[i := lists[i][..n]];
    var b := lists[i][n];
    assert IsMarked(bits, start, b);
    assert forall j :: j in lists && j != i ==> Apart(lists[i], lists[j]);
    assert forall j :: j in lists1 ==> b !in lists1[j];
    assert !HasOwner(lists1, b);
  }

  lemma OwnedPrefix(lists: Lists, bits: Bits, start: nat, i: u32, n: nat)
    requires Owned(lists, bits, start) && i in lists && n <= |lists[i]|
    ensures Owned(lists[i := lists[i][..n]], bits, start)
  {
    hide IsMarked;
    var lists1 := lists[i := lists[i][..n]];
    assert forall j :: j in lists1 ==> lists1[j] <= lists[j];
    forall j, p | j in lists1 && 0 <= p < |lists1[j]| ensures IsMarked(bits, start, lists1[j][p]) {
      assert lists1[j][p] == lists[j][p];
    }
  }

  lemma PrefixFile(f: File, blocks: Blocks, s: seq<u32>, size: nat)
    requires FileOk(f.node, f.size, blocks, s) && size <= f.size && ZeroFrom(blocks, s, size)
    ensures TotalBlocks(size) <= |s| && FileOk(f.node, size, blocks, s[..TotalBlocks(size)])
    ensures Content(blocks, s[..TotalBlocks(size)], size) == Content(blocks, s, f.size)[..size]
  {
    hide Pos, Total, Rep, Content;
    TotalMonotone(DataBlocks(size), DataBlocks(f.size));
    TotalMonotone(size, f.size);
    var s1 := s[..TotalBlocks(size)];
    RepPrefix(f.node, blocks, s, TotalBlocks(size));
    ContentAt(blocks, s1, size);
    ContentAt(blocks, s, f.size);
    assert forall k: nat :: ByteAt(blocks, s1, k) == 0 || ByteAt(blocks, s1, k) == ByteAt(blocks, s, k);
    forall k: nat | k < size ensures ByteAt(blocks, s1, k) == ByteAt(blocks, s, k) { BlockInFile(size, k); }
  }

  lemma RepPrefix(node: Node, blocks: Blocks, s: seq<u32>, n: nat)
    requires Rep(node, blocks, s) && n <= |s|
    ensures Rep(node, blocks, s[..n])
  {
    hide Word, Parent, WordOf;
    forall p | 0 <= p < n ensures Stored(node, blocks, s[..n], p) == s[p] { RepAt(node, blocks, s, p); }
  }

  // ----- free blocks -----

  /** The clear bits that stand for a block of the data area. */
  ghost function Free(bits: Bits, area: nat): set<nat>
    requires area <= |bits| * BLOCK_BITS
  {
    set bit: nat | bit < area && !Marked(bits, bit)
  }

  class EasyFileSystem {
    const disk: Disk
    const dataBitmap: Bitmap
    const inodeBitmap: Bitmap
    /** `data_area_start_block` and the number of blocks from there on. */
    const start: nat
    const area: nat
    /** How many inodes the inode area holds. */
    const inodeMax: nat
    /** The inode area. */
    var files: Files
    /** The list each inode's tree stands for. */
    ghost var lists: Lists

    ghost predicate Valid()
      reads this, disk, dataBitmap, inodeBitmap
    {
      && dataBitmap != inodeBitmap
      && lists.Keys == files.Keys && FsOk(files, lists, disk.blocks, dataBitmap.blocks, start)
      && (forall i: u32 :: i in files <==> IsMarked(inodeBitmap.blocks, 0, i))
      && (forall i :: i in files ==> i < inodeMax)
      && AreaOk(disk.blocks, dataBitmap.blocks, start, area)
    }

    /** `create`: a super block, all other blocks zero, one directory, the root, its own parent. */
    constructor (disk: Disk, total: u32, inodeBitmapBlocks: nat)
      requires total >= 1 + inodeBitmapBlocks + L.InodeArea(inodeBitmapBlocks) && inodeBitmapBlocks > 0
      requires forall b: u32 :: b < total <==> b in disk.blocks
      modifies disk
      ensures Valid() && NoLeak() && this.disk == disk && fresh(dataBitmap) && fresh(inodeBitmap)
      ensures View() == map[0 := Doc(true, 0, [])]
      ensures start + area == total && area == L.Plan(total, inodeBitmapBlocks).dataArea && FreeCount() == area
      ensures inodeMax == 3 * L.Plan(total, inodeBitmapBlocks).inodeArea && |inodeBitmap.blocks| == inodeBitmapBlocks
      ensures 0 in disk.blocks && Word(disk.blocks[0], 0) == EFS_MAGIC
    {
      hide Marked, FsOk, Exact, ViewOf, SuperBlock, Word;
      var l := L.Plan(total, inodeBitmapBlocks);
      L.PlanFits(total, inodeBitmapBlocks);
      this.disk := disk;
      inodeBitmap := new Bitmap(inodeBitmapBlocks);
      dataBitmap := new Bitmap(l.dataBitmap);
      start, area, inodeMax := l.dataStart, l.dataArea, 3 * l.inodeArea;
      files, lists := map[], map[];
      new;
      ClearDisk(disk, total, inodeBitmapBlocks, l.inodeArea, l.dataBitmap, l.dataArea);
      assert !Marked(inodeBitmap.blocks, 0);
      var root := inodeBitmap.Alloc();
      assert root == Some(0);
      files := map[0 := File(Node(seq(28, _ => 0), 0, 0), 0, true, 0)];
      lists := map[0 := []];
      EmptyFile(files[0], disk.blocks);
      NewFsOk(files[0], disk.blocks, dataBitmap.blocks, start);
      AllFree(dataBitmap.blocks, area);
    }

    ghost predicate NoLeak()
      reads this, dataBitmap
    {
      Exact(lists, dataBitmap.blocks, start)
    }

    ghost function View(): Docs
      requires lists.Keys == files.Keys
      reads this, disk
    {
      ViewOf(files, lists, disk.blocks)
    }

    /** Free blocks of the data area. */
    ghost function FreeCount(): nat
      requires Valid()
      reads this, disk, dataBitmap, inodeBitmap
    {
      |Free(dataBitmap.blocks, area)|
    }

    /** Inode numbers that have a bit, a place in the inode area and 32 bits. */
    ghost function InodeLimit(): nat
      reads this, inodeBitmap
    {
      Min(Min(inodeMax, |inodeBitmap.blocks| * BLOCK_BITS), 0x1_0000_0000)
    }

    /** `alloc_data`: the lowest free block.  `ok` is false where the area has none left: there the source fails or
        hands out a block past the area. */
    method AllocData() returns (ok: bool, id: u32)
      requires AreaOk(disk.blocks, dataBitmap.blocks, start, area)
      modifies dataBitmap
      ensures ok <==> old(Free(dataBitmap.blocks, area)) != {}
      ensures ok ==> old(Fresh([id], disk.blocks, dataBitmap.blocks, start))
      ensures ok ==> Taken(old(dataBitmap.blocks), dataBitmap.blocks, start, [id])
      ensures ok ==> AreaOk(disk.blocks, dataBitmap.blocks, start, area)
      ensures ok ==> |Free(dataBitmap.blocks, area)| == |old(Free(dataBitmap.blocks, area))| - 1
    {
      hide Marked;
      ghost var bits := dataBitmap.blocks;
      var bit := dataBitmap.Alloc();
      if bit.None? || bit.value >= area {
        assert forall b: nat :: b < area ==> Marked(bits, b);
        return false, 0;
      }
      assert start + bit.value in disk.blocks;
      id := start + bit.value;
      ok := true;
      assert bit.value in Free(bits, area);
      assert Free(dataBitmap.blocks, area) == Free(bits, area) - {bit.value};
    }

    /** The allocation loop of `Inode::increase_size`. */
    method AllocMany(count: nat) returns (ok: bool, ids: seq<u32>)
      requires AreaOk(disk.blocks, dataBitmap.blocks, start, area)
      modifies dataBitmap
      ensures ok <==> count <= old(|Free(dataBitmap.blocks, area)|)
      ensures ok ==> |ids| == count && old(Fresh(ids, disk.blocks, dataBitmap.blocks, start))
      ensures ok ==> Taken(old(dataBitmap.blocks), dataBitmap.blocks, start, ids)
      ensures ok ==> AreaOk(disk.blocks, dataBitmap.blocks, start, area)
      ensures ok ==> |Free(dataBitmap.blocks, area)| == old(|Free(dataBitmap.blocks, area)|) - count
    {
      hide Fresh, Taken, AreaOk, Free;
      ghost var bits := dataBitmap.blocks;
      ids := [];
      AreaFacts(disk.blocks, bits, start, area);
      TakenNone(disk.blocks, bits, start);
      ok := true;
      while |ids| < count
        invariant |ids| <= count && AreaOk(disk.blocks, dataBitmap.blocks, start, area)
        invariant Fresh(ids, disk.blocks, bits, start) && Taken(bits, dataBitmap.blocks, start, ids)
        invariant area <= |dataBitmap.blocks| * BLOCK_BITS
        invariant |Free(dataBitmap.blocks, area)| == |Free(bits, area)| - |ids|
        invariant ok
      {
        ghost var before := dataBitmap.blocks;
        var id;
        ok, id := AllocData();
        if !ok { return; }
        TakenMore(disk.blocks, bits, before, dataBitmap.blocks, start, ids, id);
        AreaFacts(disk.blocks, dataBitmap.blocks, start, area);
        ids := ids + [id];
      }
    }

    /** `Inode::write_at`: the file's bytes are overwritten and extended, every other file keeps its bytes, and no block
        gets a second owner.  `ok` is false when the file would pass its longest size or the data area is too full, or
        when an empty write past the last block looks up a block that is not on the device. */
    method Write(i: u32, offset: nat, buf: seq<byte>) returns (ok: bool)
      requires Valid() && i in files
      modifies this, disk, dataBitmap
      ensures i in files
      ensures ok <==> offset + |buf| <= MAX_SIZE && Needed(old(files[i].size), offset + |buf|) <= old(FreeCount())
                      && (InFile(old(files[i].size), offset, |buf|)
                          || OnDevice(files[i].node, disk.blocks, BlockOf(offset)))
      ensures ok ==> Valid() && (NoLeak() <==> old(NoLeak()))
      ensures ok ==> FreeCount() == old(FreeCount()) - Needed(old(files[i].size), offset + |buf|)
      ensures ok ==> View() == old(View())[i := old(View()[i]).(bytes := Written(old(View()[i]).bytes, offset, buf))]
    {
      hide FileOk, Content, Written, AreaOk, Free, Fresh, Taken, TotalBlocks, Owned, FreeZero, Exact, IsMarked, ViewOf,
           OnDevice, InFile, BlockOf;
      ViewAt(files, lists, disk.blocks, i);
      ghost var files0, lists0, bits0, blocks0 := files, lists, dataBitmap.blocks, disk.blocks;
      var f := files[i];
      AreaFacts(disk.blocks, dataBitmap.blocks, start, area);
      var needed := Needed(f.size, offset + |buf|);
      var ids;
      ok, ids := AllocMany(needed);
      if !ok { return; }
      FreshIsApart(files0, lists0, blocks0, bits0, start, ids, i);
      var inode := new DiskInode.Load(f.node, f.size, f.isDir, f.parent);
      var n;
      ghost var s1;
      ok, n, s1 := WriteFile(inode, disk, offset, buf, ids, lists[i]);
      files := files[i := File(Node(inode.direct, inode.indirect1, inode.indirect2), inode.size, f.isDir, f.parent)];
      if !ok { return; }
      lists := lists[i := lists[i] + ids];
      GrowKeeps(files0, lists0, blocks0, bits0, start, i, files[i], ids, disk.blocks, dataBitmap.blocks);
      AreaKept(blocks0, disk.blocks, dataBitmap.blocks, start, area);
    }

    /** `dealloc_data`: the block is zeroed and its bit, which is set, cleared. */
    method DeallocData(id: u32)
      requires id in disk.blocks && IsMarked(dataBitmap.blocks, start, id)
      requires AreaOk(disk.blocks, dataBitmap.blocks, start, area)
      modifies disk, dataBitmap
      ensures disk.blocks == old(disk.blocks)[id := ZeroBlock]
      ensures Freed(old(dataBitmap.blocks), dataBitmap.blocks, start, [id])
      ensures AreaOk(disk.blocks, dataBitmap.blocks, start, area)
      ensures |Free(dataBitmap.blocks, area)| == old(|Free(dataBitmap.blocks, area)|) + 1
    {
      hide Marked;
      ghost var bits := dataBitmap.blocks;
      disk.blocks := disk.blocks[id := ZeroBlock];
      var ok := dataBitmap.Dealloc(id - start);
      assert ok;
      assert Free(dataBitmap.blocks, area) == Free(bits, area) + {id - start};
    }

    /** The loop over the blocks that `clear_size` returned. */
    method DeallocAll(v: seq<u32>)
      requires Distinct(v)
      requires forall k :: 0 <= k < |v| ==> v[k] in disk.blocks && IsMarked(dataBitmap.blocks, start, v[k])
      requires AreaOk(disk.blocks, dataBitmap.blocks, start, area)
      modifies disk, dataBitmap
      ensures OnlyIn(old(disk.blocks), disk.blocks, v)
      ensures forall b :: b in disk.blocks && b in v ==> disk.blocks[b] == ZeroBlock
      ensures Freed(old(dataBitmap.blocks), dataBitmap.blocks, start, v)
      ensures AreaOk(disk.blocks, dataBitmap.blocks, start, area)
      ensures |Free(dataBitmap.blocks, area)| == old(|Free(dataBitmap.blocks, area)|) + |v|
    {
      hide IsMarked, Free, AreaOk;
      AreaFacts(disk.blocks, dataBitmap.blocks, start, area);
      ghost var bits := dataBitmap.blocks;
      var k := 0;
      while k < |v|
        invariant 0 <= k <= |v| && OnlyIn(old(disk.blocks), disk.blocks, v[..k])
        invariant forall b :: b in disk.blocks && b in v[..k] ==> disk.blocks[b] == ZeroBlock
        invariant Freed(bits, dataBitmap.blocks, start, v[..k])
        invariant AreaOk(disk.blocks, dataBitmap.blocks, start, area) && area <= |dataBitmap.blocks| * BLOCK_BITS
        invariant |Free(dataBitmap.blocks, area)| == |Free(bits, area)| + k
      {
        assert v[..k + 1] == v[..k] + [v[k]] && v[k] !in v[..k];
        DeallocData(v[k]);
        AreaFacts(disk.blocks, dataBitmap.blocks, start, area);
        k := k + 1;
      }
      assert v[..k] == v;
    }

    /** `Inode::clear`: the file becomes empty and its blocks free; every assertion on the way holds. */
    method Clear(i: u32)
      requires Valid() && i in files
      modifies this, disk, dataBitmap
      ensures Valid() && (NoLeak() <==> old(NoLeak()))
      ensures View() == old(View())[i := old(View()[i]).(bytes := [])] && i in lists && lists[i] == []
      ensures FreeCount() == old(FreeCount()) + TotalBlocks(old(files[i].size))
    {
      hide Content, AreaOk, Free, Fresh, Taken, TotalBlocks, FreeZero, Exact, IsMarked, Rep, ZeroFrom, OnlyIn, Freed,
           Owned, ViewOf;
      ViewAt(files, lists, disk.blocks, i);
      ghost var files0, lists0, bits0, blocks0 := files, lists, dataBitmap.blocks, disk.blocks;
      var f := files[i];
      var inode := new DiskInode.Load(f.node, f.size, f.isDir, f.parent);
      var v := inode.ClearSize(disk, lists[i]);
      RepDirect(inode.Tree(), disk.blocks, []);
      OwnedFile(files0, lists0, blocks0, bits0, start, i);
      assert |v| == TotalBlocks(f.size);
      DeallocAll(v);
      ghost var after := disk.blocks;
      files := files[i := File(Node(inode.direct, inode.indirect1, inode.indirect2), inode.size, f.isDir, f.parent)];
      lists := lists[i := []];
      EmptyFile(files[i], disk.blocks);
      ClearKeeps(files0, lists0, blocks0, bits0, start, i, files[i], disk.blocks, dataBitmap.blocks);
      ContentAt(disk.blocks, [], 0);
    }

    /** `alloc_inode` and `initialize`: a new empty inode with the given parent.  `ok` is false when the bitmap is full
        or its lowest free number lies outside the inode area. */
    method CreateInode(isDir: bool, parent: u32) returns (ok: bool, id: u32)
      requires Valid()
      modifies this, inodeBitmap
      ensures ok <==> exists i: u32 :: i !in old(files) && i < inodeMax && i < |old(inodeBitmap.blocks)| * BLOCK_BITS
      ensures ok ==> Valid() && (NoLeak() <==> old(NoLeak()))
      ensures ok ==> FreeCount() == old(FreeCount()) && InodeLimit() == old(InodeLimit())
      ensures ok ==> id !in old(files) && forall i: u32 :: i < id ==> i in old(files)
      ensures ok ==> View() == old(View())[id := Doc(isDir, parent, [])]
    {
      hide Content, AreaOk, FreeZero, Exact, Marked, FsOk, ViewOf;
      ghost var files0, lists0, bits0 := files, lists, inodeBitmap.blocks;
      var bit := inodeBitmap.Alloc();
      if bit.None? || bit.value >= inodeMax || bit.value >= 0x1_0000_0000 {
        assert forall i: u32 :: i < inodeMax && i < |bits0| * BLOCK_BITS ==> IsMarked(bits0, 0, i);
        return false, 0;
      }
      id := bit.value;
      ok := true;
      assert !IsMarked(bits0, 0, id);
      files := files[id := File(Node(seq(28, _ => 0), 0, 0), 0, isDir, parent)];
      lists := lists[id := []];
      EmptyFile(files[id], disk.blocks);
      AddKeeps(files0, lists0, disk.blocks, dataBitmap.blocks, start, id, files[id]);
      ContentAt(disk.blocks, [], 0);
      ListsKeys(files0, lists0, disk.blocks, dataBitmap.blocks, start);
    }

    /** `dealloc_inode` of a cleared inode; its bit is set. */
    method RemoveInode(i: u32)
      requires Valid() && i in files && lists[i] == []
      modifies this, inodeBitmap
      ensures Valid() && (NoLeak() <==> old(NoLeak())) && View() == old(View()) - {i}
      ensures FreeCount() == old(FreeCount()) && InodeLimit() == old(InodeLimit())
    {
      hide Content, AreaOk, FreeZero, Exact, Marked, FsOk, ViewOf;
      ghost var files0, lists0, bits0 := files, lists, inodeBitmap.blocks;
      assert IsMarked(bits0, 0, i);
      var ok := inodeBitmap.Dealloc(i);
      assert ok;
      files, lists := files - {i}, lists - {i};
      DropKeeps(files0, lists0, disk.blocks, dataBitmap.blocks, start, i);
      ListsKeys(files0, lists0, disk.blocks, dataBitmap.blocks, start);
    }

    /** A directory's `size` is lowered; blocks past the new size stay marked but belong to nobody. */
    method Shrink(i: u32, size: nat)
      requires Valid() && i in files && size <= files[i].size
      requires |View()[i].bytes| == files[i].size && forall k :: size <= k < files[i].size ==> View()[i].bytes[k] == 0
      modifies this
      ensures Valid() && View() == old(View())[i := old(View()[i]).(bytes := old(View()[i]).bytes[..size])]
      ensures NoLeak() <==> old(NoLeak()) && TotalBlocks(size) == TotalBlocks(old(files[i].size))
      ensures FreeCount() == old(FreeCount())
    {
      hide AreaOk, Exact, IsMarked, TotalBlocks, FsOk, Content;
      ghost var files0, lists0 := files, lists;
      ListsKeys(files, lists, disk.blocks, dataBitmap.blocks, start);
      assert View()[i].bytes == Content(disk.blocks, lists[i], files[i].size);
      ZeroTail(files, lists, disk.blocks, dataBitmap.blocks, start, i, size);
      ShrinkKeeps(files0, lists0, disk.blocks, dataBitmap.blocks, start, i, size);
      files := files[i := files[i].(size := size)];
      lists := lists[i := lists[i][..TotalBlocks(size)]];
    }

    /** `set_parent_inode`. */
    method SetParent(i: u32, parent: u32)
      requires Valid() && i in files
      modifies this`files
      ensures Valid() && (NoLeak() <==> old(NoLeak())) && View() == old(View())[i := old(View()[i]).(parent := parent)]
      ensures FreeCount() == old(FreeCount())
    {
      hide Owned, FreeZero, AreaOk, IsMarked, FileOk, Content;
      files := files[i := files[i].(parent := parent)];
    }

    /** `Inode::read_at`. */
    method Read(i: u32, offset: nat, buf: array<byte>) returns (n: nat)
      requires Valid() && i in files
      modifies buf
      ensures n <= buf.Length && buf[..n] == Slice(View()[i].bytes, offset, buf.Length) && buf[n..] == old(buf[..])[n..]
    {
      hide Content, Rep, Slice, ZeroFrom, TotalBlocks, Owned, FreeZero;
      var f := files[i];
      var inode := new DiskInode.Load(f.node, f.size, f.isDir, f.parent);
      n := ReadAt(inode, disk, offset, buf, lists[i]);
    }
  }

  lemma ListsKeys(files: Files, lists: Lists, blocks: Blocks, bits: Bits, start: nat)
    requires FsOk(files, lists, blocks, bits, start)
    ensures lists.Keys == files.Keys
  {
  }

  lemma ZeroTail(files: Files, lists: Lists, blocks: Blocks, bits: Bits, start: nat, i: u32, size: nat)
    requires FsOk(files, lists, blocks, bits, start) && i in files && size <= files[i].size
    requires forall k :: size <= k < files[i].size ==> Content(blocks, lists[i], files[i].size)[k] == 0
    ensures ZeroFrom(blocks, lists[i], size) && |lists[i]| == TotalBlocks(files[i].size)
  {
    hide Rep, TotalBlocks, ByteAt, Owned, FreeZero;
    assert FileOk(files[i].node, files[i].size, blocks, lists[i]);
    ContentAt(blocks, lists[i], files[i].size);
    assert forall k: nat :: size <= k < files[i].size ==>
        ByteAt(blocks, lists[i], k) == Content(blocks, lists[i], files[i].size)[k];
  }

  lemma OwnedFile(files: Files, lists: Lists, blocks: Blocks, bits: Bits, start: nat, i: u32)
    requires FsOk(files, lists, blocks, bits, start) && i in files
    ensures Distinct(lists[i])
    ensures forall k :: 0 <= k < |lists[i]| ==> lists[i][k] in blocks && IsMarked(bits, start, lists[i][k])
  {
    hide IsMarked, FreeZero, ZeroFrom, TotalBlocks;
    assert FileOk(files[i].node, files[i].size, blocks, lists[i]);
    RepDirect(files[i].node, blocks, lists[i]);
  }

  lemma AreaFacts(blocks: Blocks, bits: Bits, start: nat, area: nat)
    requires AreaOk(blocks, bits, start, area)
    ensures area <= |bits| * BLOCK_BITS
  {
  }

  lemma AreaKept(blocks: Blocks, after: Blocks, bits: Bits, start: nat, area: nat)
    requires AreaOk(blocks, bits, start, area) && after.Keys == blocks.Keys
    ensures AreaOk(after, bits, start, area)
  {
  }

  lemma TakenNone(blocks: Blocks, bits: Bits, start: nat)
    ensures Fresh([], blocks, bits, start) && Taken(bits, bits, start, [])
  {
  }

  lemma TakenMore(blocks: Blocks, b0: Bits, b1: Bits, b2: Bits, start: nat, ids: seq<u32>, id: u32)
    requires Fresh(ids, blocks, b0, start) && Taken(b0, b1, start, ids)
    requires Fresh([id], blocks, b1, start) && Taken(b1, b2, start, [id])
    ensures Fresh(ids + [id], blocks, b0, start) && Taken(b0, b2, start, ids + [id])
  {
    hide Marked;
    assert [id][0] == id;
    assert !IsMarked(b1, start, id);
    assert id !in ids && !IsMarked(b0, start, id);
  }

  ghost predicate AreaOk(blocks: Blocks, bits: Bits, start: nat, area: nat) {
    area <= |bits| * BLOCK_BITS && start + area <= 0x1_0000_0000 && forall b: u32 :: start <= b ==>
        (b in blocks <==> b < start + area)
  }

  /** The loop that clears every block. */
  method ZeroAll(disk: Disk, total: u32)
    requires forall b: u32 :: b < total <==> b in disk.blocks
    modifies disk
    ensures disk.blocks.Keys == old(disk.blocks.Keys) && forall b :: b in disk.blocks ==> disk.blocks[b] == ZeroBlock
  {
    var i: u32 := 0;
    while i < total
      invariant i <= total && disk.blocks.Keys == old(disk.blocks.Keys)
      invariant forall b: u32 :: b < i ==> b in disk.blocks && disk.blocks[b] == ZeroBlock
    {
      disk.blocks := disk.blocks[i := ZeroBlock];
      i := i + 1;
    }
  }

  /** All blocks zero but the super block. */
  method ClearDisk(disk: Disk, total: u32, inodeBitmap: u32, inodeArea: u32, dataBitmap: u32, dataArea: u32)
    requires total > 0 && forall b: u32 :: b < total <==> b in disk.blocks
    modifies disk
    ensures disk.blocks.Keys == old(disk.blocks.Keys)
    ensures forall b :: b in disk.blocks && b > 0 ==> disk.blocks[b] == ZeroBlock
    ensures 0 in disk.blocks && Word(disk.blocks[0], 0) == EFS_MAGIC
  {
    hide SuperBlock, Word;
    ZeroAll(disk, total);
    disk.blocks := disk.blocks[0 := SuperBlock(total, inodeBitmap, inodeArea, dataBitmap, dataArea)];
    SuperBlockMagic(total, inodeBitmap, inodeArea, dataBitmap, dataArea);
  }

  lemma AllFree(bits: Bits, area: nat)
    requires area <= |bits| * BLOCK_BITS && forall bit: nat :: bit < |bits| * BLOCK_BITS ==> !Marked(bits, bit)
    ensures |Free(bits, area)| == area
  {
    hide Marked;
    assert forall bit: nat :: bit < area ==> !Marked(bits, bit);
    UpTo(area);
    assert Free(bits, area) == Below(area);
  }

  ghost function Below(n: nat): set<nat> { if n == 0 then {} else Below(n - 1) + {n - 1} }

  lemma {:induction false} UpTo(n: nat)
    ensures |Below(n)| == n && forall k: nat :: k in Below(n) <==> k < n
  {
    if n > 0 { UpTo(n - 1); }
  }

  /** One inode without blocks, every bit clear, every block of the area zero. */
  lemma NewFsOk(f: File, blocks: Blocks, bits: Bits, start: nat)
    requires FileOk(f.node, f.size, blocks, []) && f.size == 0
    requires forall bit: nat :: bit < |bits| * BLOCK_BITS ==> !Marked(bits, bit)
    requires forall b :: b in blocks && b >= start ==> blocks[b] == ZeroBlock
    ensures FsOk(map[0 := f], map[0 := []], blocks, bits, start) && Exact(map[0 := []], bits, start)
    ensures ViewOf(map[0 := f], map[0 := []], blocks) == map[0 := Doc(f.isDir, f.parent, [])]
  {
    hide FileOk, Marked;
    ContentAt(blocks, [], 0);
  }

  lemma EmptyFile(f: File, blocks: Blocks)
    requires |f.node.direct| == 28 && f.size == 0
    ensures FileOk(f.node, 0, blocks, [])
  {
    RepEmpty(f.node);
    TotalZero();
  }
}
