/**
 The inode's index tree (easy-fs/src/layout.rs): 28 direct block ids, one
 index block of 128 ids and one index block of 128 index blocks.  The tree
 stands for one list, the blocks in the order they were supplied: data and
 index blocks interleaved.  `increase_size` appends to that list and
 `clear_size` returns it.
 */
module IndexTree {
  import opened Wrappers
  import opened Sequences
  import opened BlockDevice

  const INODE_DIRECT_COUNT := 28
  const INODE_INDIRECT1_COUNT := 128
  const INDIRECT1_BOUND := 156
  const INODE_INDIRECT2_COUNT := 16384
  const MAX_DATA_BLOCKS := 16540
  const MAX_SIZE := 8468480

  /** The indexing fields of a `DiskInode`. */
  datatype Node = Node(direct: seq<u32>, indirect1: u32, indirect2: u32)

  // ----- sizes -----

  function DataBlocks(size: nat): nat { (size + 511) / 512 }

  /** `data_blocks` is the least number of blocks that hold `size` bytes. */
  lemma DataBlocksLeast(size: nat, n: nat)
    ensures 512 * n >= size <==> n >= DataBlocks(size)
  {
  }

  function Total(n: nat): nat {
    n + (if n > INODE_DIRECT_COUNT then 1 else 0) + (if n > INDIRECT1_BOUND then 1 + (n - INDIRECT1_BOUND + 127) / 128
        else 0)
  }

  /** `total_blocks`. */
  function TotalBlocks(size: nat): nat { Total(DataBlocks(size)) }

  /** Where data block `i` stands in the list. */
  function Pos(i: nat): nat {
    if i < INODE_DIRECT_COUNT then i else if i < INDIRECT1_BOUND then i + 1 else i + 3 + (i - INDIRECT1_BOUND) / 128
  }

  /** The positions that hold index blocks. */
  predicate IsIndex(p: nat) { p == 28 || p == 157 || (p >= 158 && (p - 158) % 129 == 0) }

  /** The list holding `n` data blocks ends with the last of them. */
  lemma TotalIsNextPosition(n: nat)
    ensures n > 0 ==> Total(n) == Pos(n - 1) + 1
    ensures !IsIndex(Pos(n))
  {
    if n > 156 {
      var m := n - 157;
      assert (m + 128) / 128 == m / 128 + 1;
    }
    if n >= 156 {
      var a, b := (n - 156) / 128, (n - 156) % 128;
      assert Pos(n) - 158 == 129 * a + b + 1;
      RemainderIs(a, b + 1);
    }
  }

  lemma RemainderIs(a: nat, r: nat)
    requires r < 129
    ensures (129 * a + r) % 129 == r
  {
  }

  /** Every position is an index block or a data block, exactly one: nothing in the list is unaccounted for. */
  lemma PosOnto(p: nat) returns (i: nat)
    requires !IsIndex(p)
    ensures Pos(i) == p
  {
    i := if p < 28 then p else if p < 157 then p - 1 else 156 + 128 * ((p - 158) / 129) + (p - 158) % 129 - 1;
  }

  lemma PosMonotone(i: nat, j: nat)
    requires i < j
    ensures Pos(i) < Pos(j)
  {
  }

  lemma TotalMonotone(m: nat, n: nat)
    requires m <= n
    ensures Total(m) <= Total(n) && DataBlocks(m) <= DataBlocks(n)
  {
  }

  // ----- where each element is stored -----

  /** The position of the index block whose word holds the id at position `p`. */
  function Parent(p: nat): nat
    requires p > 28 && p != 157
  {
    if p < 157 then 28 else if (p - 158) % 129 == 0 then 157 else 158 + 129 * ((p - 158) / 129)
  }

  function WordOf(p: nat): nat
    requires p > 28 && p != 157
  {
    if p < 157 then p - 29 else if (p - 158) % 129 == 0 then (p - 158) / 129 else (p - 158) % 129 - 1
  }

  predicate Inline(p: nat) { p <= 28 || p == 157 }

  lemma ParentFacts(p: nat)
    requires !Inline(p)
    ensures Parent(p) < p && IsIndex(Parent(p))
    ensures p < 158 + 129 * 128 ==> WordOf(p) < 128
  {
  }

  lemma WordsDistinct(p: nat, q: nat)
    requires !Inline(p) && !Inline(q) && Parent(p) == Parent(q) && WordOf(p) == WordOf(q)
    ensures p == q
  {
  }

  function InlineId(node: Node, p: nat): u32
    requires Inline(p) && |node.direct| == 28
  {
    if p < 28 then node.direct[p] else if p == 28 then node.indirect1 else node.indirect2
  }

  /** The id stored at position `p`. */
  function Stored(node: Node, blocks: Blocks, s: seq<u32>, p: nat): u32
    requires |node.direct| == 28 && p < |s| <= 158 + 129 * 128 && forall k :: 0 <= k < |s| ==> s[k] in blocks
  {
    if Inline(p) then InlineId(node, p) else ParentFacts(p); Word(blocks[s[Parent(p)]], WordOf(p))
  }

  ghost predicate Within(s: seq<u32>, blocks: Blocks) { forall k :: 0 <= k < |s| ==> s[k] in blocks }

  /** The tree stands for the list `s`. */
  ghost predicate Rep(node: Node, blocks: Blocks, s: seq<u32>) {
    && |node.direct| == 28 && |s| <= 158 + 129 * 128 && Within(s, blocks) && Distinct(s)
    && forall p :: 0 <= p < |s| ==> Stored(node, blocks, s, p) == s[p]
  }

  lemma RepAt(node: Node, blocks: Blocks, s: seq<u32>, p: nat)
    requires Rep(node, blocks, s) && p < |s|
    ensures s[p] in blocks
    ensures Inline(p) ==> InlineId(node, p) == s[p]
    ensures !Inline(p) ==> Parent(p) < p && WordOf(p) < 128 && s[Parent(p)] in blocks
    ensures !Inline(p) ==> Word(blocks[s[Parent(p)]], WordOf(p)) == s[p]
  {
    assert Stored(node, blocks, s, p) == s[p];
    if !Inline(p) { ParentFacts(p); }
  }

  // ----- appending one id -----

  function WithInline(node: Node, p: nat, x: u32): Node
    requires Inline(p) && |node.direct| == 28
  {
    if p < 28 then node.(direct := node.direct[p := x]) else if p == 28 then node.(indirect1 := x)
        else node.(indirect2 := x)
  }

  lemma InlineAppended(node: Node, blocks: Blocks, s: seq<u32>, x: u32)
    requires Rep(node, blocks, s) && Inline(|s|) && x in blocks && x !in s
    ensures Rep(WithInline(node, |s|, x), blocks, s + [x])
  {
    hide Word, Parent, WordOf;
    var n1, s1 := WithInline(node, |s|, x), s + [x];
    assert |s1| <= 158 + 129 * 128;
    forall p | 0 <= p < |s1| ensures Stored(n1, blocks, s1, p) == s1[p] {
      if p < |s| {
        RepAt(node, blocks, s, p);
      }
    }
  }

  lemma WordAppended(node: Node, blocks: Blocks, s: seq<u32>, x: u32)
    requires Rep(node, blocks, s) && !Inline(|s|) && |s| < 158 + 129 * 128 && x in blocks && x !in s
    ensures Parent(|s|) < |s| && WordOf(|s|) < 128
    ensures var b := s[Parent(|s|)];
            b in blocks && Rep(node, blocks[b := WithWord(blocks[b], WordOf(|s|), x)], s + [x])
  {
    hide Word, WithWord, Parent, WordOf, IsIndex;
    ParentFacts(|s|);
    var b, k := s[Parent(|s|)], WordOf(|s|);
    var after := blocks[b := WithWord(blocks[b], k, x)];
    var s1 := s + [x];
    forall p | 0 <= p < |s1| ensures Stored(node, after, s1, p) == s1[p] {
      if !Inline(p) {
        ParentFacts(p);
        if s1[Parent(p)] == b {
          assert Parent(p) == Parent(|s|);
          WordAfter(blocks[b], k, x, WordOf(p));
          if p < |s| {
            RepAt(node, blocks, s, p);
            if WordOf(p) == k { WordsDistinct(p, |s|); }
          }
        } else {
          RepAt(node, blocks, s, p);
        }
      } else {
        RepAt(node, blocks, s, p);
      }
    }
  }

  // ----- reading -----

  /** `get_block_id` of any inode, whatever its list; none where an index block on the way is not on the device, or `i`
      is past the last index. */
  function BlockId(node: Node, blocks: Blocks, i: nat): Option<u32>
    requires |node.direct| == 28
  {
    if i < 28 then Some(node.direct[i])
    else if i < 156 then
      if node.indirect1 in blocks then Some(Word(blocks[node.indirect1], i - 28)) else None
    else if i < MAX_DATA_BLOCKS && node.indirect2 in blocks then
      var index := Word(blocks[node.indirect2], (i - 156) / 128);
      if index in blocks then Some(Word(blocks[index], (i - 156) % 128)) else None
    else None
  }

  lemma PosPlaces(i: nat)
    ensures 28 <= i < 156 ==> !Inline(Pos(i)) && Parent(Pos(i)) == 28 && WordOf(Pos(i)) == i - 28
    ensures i >= 156 ==>
              var q := 158 + 129 * ((i - 156) / 128);
              && !Inline(Pos(i)) && Parent(Pos(i)) == q && WordOf(Pos(i)) == (i - 156) % 128
              && q < Pos(i) && !Inline(q) && Parent(q) == 157 && WordOf(q) == (i - 156) / 128
    ensures i < 28 ==> Pos(i) == i
    ensures Pos(i) < 158 + 129 * 128 <==> i < MAX_DATA_BLOCKS
    ensures 28 <= i < 156 ==> 28 < Pos(i)
    ensures i >= 156 ==> 157 < Pos(i)
  {
  }

  /** Across the direct, single- and double-indirect ranges, `get_block_id(i)` is the i-th data block. */
  lemma BlockIdIsIth(node: Node, blocks: Blocks, s: seq<u32>, i: nat)
    requires Rep(node, blocks, s) && Pos(i) < |s|
    ensures |node.direct| == 28 && BlockId(node, blocks, i) == Some(s[Pos(i)]) && s[Pos(i)] in blocks
  {
    hide Word, Pos, Parent, WordOf;
    PosPlaces(i);
    RepAt(node, blocks, s, Pos(i));
    if i >= 156 {
      RepAt(node, blocks, s, 157);
      RepAt(node, blocks, s, 158 + 129 * ((i - 156) / 128));
    } else if i >= 28 {
      RepAt(node, blocks, s, 28);
    }
  }

  // ----- taking the next supplied id -----

  lemma NextInline(node: Node, blocks: Blocks, s: seq<u32>, j: nat)
    requires j < |s| && Rep(node, blocks, s[..j]) && Inline(j) && Distinct(s) && Within(s, blocks)
    ensures Rep(WithInline(node, j, s[j]), blocks, s[..j + 1])
  {
    hide WithInline, Rep;
    assert |node.direct| == 28 by { RepDirect(node, blocks, s[..j]); }
    InlineAppended(node, blocks, s[..j], s[j]);
    assert s[..j] + [s[j]] == s[..j + 1];
  }

  lemma NextWord(node: Node, blocks: Blocks, s: seq<u32>, j: nat)
    requires j < |s| && Rep(node, blocks, s[..j]) && !Inline(j) && j < 158 + 129 * 128 && Distinct(s)
    requires Within(s, blocks)
    ensures Parent(j) < j && WordOf(j) < 128
    ensures var b := s[Parent(j)];
            && b in blocks && Rep(node, blocks[b := WithWord(blocks[b], WordOf(j), s[j])], s[..j + 1])
            && OnlyIndex(blocks, blocks[b := WithWord(blocks[b], WordOf(j), s[j])], s)
            && (Inline(Parent(j)) ==> InlineId(node, Parent(j)) == b)
  {
    hide Word, WithWord, Rep, Parent, WordOf, IsIndex;
    ParentFacts(j);
    WordAppended(node, blocks, s[..j], s[j]);
    RepAt(node, blocks, s[..j], Parent(j));
    assert s[..j] + [s[j]] == s[..j + 1];
    assert s[..j][Parent(j)] == s[Parent(j)];
  }

  /** Only index blocks of the list were written. */
  ghost predicate OnlyIndex(blocks: Blocks, after: Blocks, s: seq<u32>) {
    && after.Keys == blocks.Keys
    && forall b :: b in blocks && after[b] != blocks[b] ==> exists p :: 0 <= p < |s| && IsIndex(p) && s[p] == b
  }

  lemma OnlyIndexTrans(b0: Blocks, b1: Blocks, b2: Blocks, s: seq<u32>)
    requires OnlyIndex(b0, b1, s) && OnlyIndex(b1, b2, s)
    ensures OnlyIndex(b0, b2, s)
  {
    hide IsIndex;
    forall b | b in b0 && b2[b] != b0[b] ensures exists p :: 0 <= p < |s| && IsIndex(p) && s[p] == b {
      if b1[b] == b0[b] { assert b in b1 && b2[b] != b1[b]; }
    }
  }

  lemma RepDirect(node: Node, blocks: Blocks, s: seq<u32>)
    requires Rep(node, blocks, s)
    ensures |node.direct| == 28 && Within(s, blocks) && Distinct(s)
  {
  }

  /** The position reached in the double-indirect range when `a` sub-blocks are full and `b` ids are in the next. */
  function SubPos(a: nat, b: nat): nat { 158 + 129 * a + (if b == 0 then 0 else b + 1) }

  lemma TotalCases(n: nat)
    ensures n <= 28 ==> Total(n) == n
    ensures 28 < n <= 156 ==> Total(n) == n + 1
    ensures n > 156 ==> Total(n) == SubPos((n - 156) / 128, (n - 156) % 128)
    ensures n <= MAX_DATA_BLOCKS ==> Total(n) <= 158 + 129 * 128
    ensures n > 28 ==> Total(n) > 29
    ensures n > 156 ==> Total(n) > 158
  {
  }

  lemma SubPlaces(a: nat, b: nat)
    requires b < 128
    ensures b == 0 ==> !Inline(SubPos(a, 0)) && Parent(SubPos(a, 0)) == 157 && WordOf(SubPos(a, 0)) == a
    ensures var p := 158 + 129 * a + b + 1;
            !Inline(p) && Parent(p) == 158 + 129 * a && WordOf(p) == b
    ensures SubPos(a, 0) == 158 + 129 * a && SubPos(a + 1, 0) == 158 + 129 * a + 129
    ensures b > 0 ==> SubPos(a, b) == 158 + 129 * a + b + 1
    ensures SubPos(a, b + 1) == 158 + 129 * a + b + 2
  {
  }

  /** Before the end `(a1, b1)` there is room for the next id and the index block it may need. */
  lemma SubRoom(a: nat, b: nat, a1: nat, b1: nat)
    requires b < 128 && b1 < 128 && (a < a1 || (a == a1 && b < b1))
    ensures 158 + 129 * a + b + 1 < SubPos(a1, b1)
    ensures SubPos(a1, b1) <= 158 + 129 * 128 ==> a < 128
  {
  }

  /** What a fill loop needs: all ids are there, distinct, and the first `j` are in the tree. */
  ghost predicate Filled(node: Node, blocks: Blocks, all: seq<u32>, j: nat) {
    && j <= |all| <= 158 + 129 * 128 && |node.direct| == 28 && Within(all, blocks) && Distinct(all)
        && Rep(node, blocks, all[..j])
  }

  lemma FillInline(node: Node, blocks: Blocks, all: seq<u32>, j: nat)
    requires Filled(node, blocks, all, j) && j < |all| && Inline(j)
    ensures Filled(WithInline(node, j, all[j]), blocks, all, j + 1)
  {
    hide Rep, Distinct;
    NextInline(node, blocks, all, j);
    RepDirect(WithInline(node, j, all[j]), blocks, all[..j + 1]);
  }

  lemma FillWord(node: Node, blocks: Blocks, all: seq<u32>, j: nat)
    requires Filled(node, blocks, all, j) && j < |all| && !Inline(j)
    ensures Parent(j) < j && WordOf(j) < 128
    ensures var b := all[Parent(j)];
            && b in blocks && Filled(node, blocks[b := WithWord(blocks[b], WordOf(j), all[j])], all, j + 1)
            && OnlyIndex(blocks, blocks[b := WithWord(blocks[b], WordOf(j), all[j])], all)
            && (Inline(Parent(j)) ==> InlineId(node, Parent(j)) == b)
  {
    hide Rep, Distinct, Parent, WordOf, WithWord, OnlyIndex;
    NextWord(node, blocks, all, j);
  }

  lemma FilledAt(node: Node, blocks: Blocks, all: seq<u32>, j: nat, p: nat)
    requires Filled(node, blocks, all, j) && p < j
    ensures all[p] in blocks
    ensures Inline(p) ==> InlineId(node, p) == all[p]
    ensures !Inline(p) ==> Parent(p) < p && WordOf(p) < 128 && all[Parent(p)] in blocks
    ensures !Inline(p) ==> Word(blocks[all[Parent(p)]], WordOf(p)) == all[p]
  {
    hide Rep, Distinct, Parent, WordOf, Word;
    RepAt(node, blocks, all[..j], p);
  }

  lemma FilledStart(node: Node, blocks: Blocks, s: seq<u32>, newBlocks: seq<u32>)
    requires Rep(node, blocks, s) && Distinct(s + newBlocks) && Within(newBlocks, blocks)
    requires |s + newBlocks| <= 158 + 129 * 128
    ensures Filled(node, blocks, s + newBlocks, |s|) && OnlyIndex(blocks, blocks, s + newBlocks)
  {
    hide Distinct;
    assert (s + newBlocks)[..|s|] == s;
    RepDirect(node, blocks, s);
  }

  lemma FilledEnd(node: Node, blocks: Blocks, all: seq<u32>)
    requires Filled(node, blocks, all, |all|)
    ensures Rep(node, blocks, all)
  {
    assert all[..|all|] == all;
  }

  /** `next()` on what the iterator still holds. */
  lemma NextId(all: seq<u32>, j: nat)
    requires j < |all|
    ensures all[j..] != [] && all[j..][0] == all[j] && all[j..][1..] == all[j + 1..]
  {
  }

  lemma FilledDirect(node: Node, blocks: Blocks, all: seq<u32>, j: nat)
    requires Filled(node, blocks, all, j)
    ensures |node.direct| == 28
  {
  }

  lemma FilledBound(node: Node, blocks: Blocks, all: seq<u32>, j: nat)
    requires Filled(node, blocks, all, j)
    ensures |all| <= 158 + 129 * 128
  {
  }

  lemma OnlyIndexRefl(blocks: Blocks, s: seq<u32>)
    ensures OnlyIndex(blocks, blocks, s)
  {
  }

  /** The position reached once the single-indirect block exists and `c` ids follow the direct ones. */
  function After1(c: nat): nat { if c == 0 then 29 else Total(28 + c) }

  lemma After1Cases(c: nat)
    ensures c <= 128 ==> After1(c) == 29 + c
    ensures c > 128 ==> After1(c) == SubPos((c - 128) / 128, (c - 128) % 128)
    ensures c > 0 ==> After1(c) == Total(28 + c)
  {
  }

  lemma SubPosZero()
    ensures SubPos(0, 0) == 158
  {
  }

  /** Within sub-block `a`, its id can be read back through the double-indirect block. */
  lemma SubStored(node: Node, blocks: Blocks, all: seq<u32>, a: nat, b: nat)
    requires b < 128 && a < 128 && Filled(node, blocks, all, 158 + 129 * a + b + 1)
    ensures node.indirect2 in blocks && Word(blocks[node.indirect2], a) == all[158 + 129 * a]
    ensures all[158 + 129 * a] in blocks
  {
    hide Filled, Word, Parent, WordOf, SubPos;
    SubPlaces(a, 0);
    assert SubPos(a, 0) == 158 + 129 * a by { SubPosAt(a, 0); }
    FilledAt(node, blocks, all, 158 + 129 * a + b + 1, 158 + 129 * a);
    FilledAt(node, blocks, all, 158 + 129 * a + b + 1, 157);
  }

  lemma SubPosAt(a: nat, b: nat)
    ensures SubPos(a, b) == 158 + 129 * a + (if b == 0 then 0 else b + 1)
  {
  }

  // ----- the inode as the file system updates it -----

  class DiskInode {
    var size: nat
    var direct: seq<u32>
    var indirect1: u32
    var indirect2: u32
    var isDir: bool
    var parentInode: u32

    ghost function Tree(): Node reads this { Node(direct, indirect1, indirect2) }

    /** `initialize`: the empty list. */
    constructor (isDir: bool)
      ensures size == 0 && this.isDir == isDir && parentInode == 0
      ensures forall blocks :: Rep(Tree(), blocks, [])
    {
      size, direct, indirect1, indirect2 := 0, seq(28, _ => 0), 0, 0;
      this.isDir, parentInode := isDir, 0;
    }

    /** The inode as read from its place in the inode area. */
    constructor Load(node: Node, size: nat, isDir: bool, parentInode: u32)
      ensures Tree() == node && this.size == size && this.isDir == isDir && this.parentInode == parentInode
    {
      direct, indirect1, indirect2 := node.direct, node.indirect1, node.indirect2;
      this.size, this.isDir, this.parentInode := size, isDir, parentInode;
    }

    /** `get_block_id`. */
    method GetBlockId(i: nat, disk: Disk) returns (id: Option<u32>)
      requires |direct| == INODE_DIRECT_COUNT
      ensures id == BlockId(Tree(), disk.blocks, i)
    {
      hide Word;
      if i < INODE_DIRECT_COUNT { return Some(direct[i]); }
      if i < INDIRECT1_BOUND {
        if indirect1 !in disk.blocks { return None; }
        return Some(Word(disk.blocks[indirect1], i - INODE_DIRECT_COUNT));
      }
      var last := i - INDIRECT1_BOUND;
      if last / INODE_INDIRECT1_COUNT >= INODE_INDIRECT1_COUNT || indirect2 !in disk.blocks { return None; }
      var index := Word(disk.blocks[indirect2], last / INODE_INDIRECT1_COUNT);
      if index !in disk.blocks { return None; }
      id := Some(Word(disk.blocks[index], last % INODE_INDIRECT1_COUNT));
    }

    /** The loop over the direct ids; `rest` is what the iterator still holds. */
    method FillDirect(first: nat, total: nat, newBlocks: seq<u32>, disk: Disk, ghost all: seq<u32>)
      returns (current: nat, rest: seq<u32>)
      requires Total(first) <= |all| && newBlocks == all[Total(first)..]
      requires Filled(Tree(), disk.blocks, all, Total(first))
      requires first <= total && |all| == Total(total)
      modifies this`direct
      ensures current == if first >= 28 then first else if total < 28 then total else 28
      ensures Total(current) <= |all| && rest == all[Total(current)..]
      ensures Filled(Tree(), disk.blocks, all, Total(current))
    {
      hide Filled, Total;
      current, rest := first, newBlocks;
      FilledDirect(Tree(), disk.blocks, all, Total(first));
      while current < total && current < INODE_DIRECT_COUNT
        invariant first <= current <= total && |direct| == 28 && (current <= 28 || current == first)
        invariant Total(current) <= |all| && rest == all[Total(current)..]
        invariant Filled(Tree(), disk.blocks, all, Total(current))
      {
        TotalCases(current);
        TotalCases(current + 1);
        TotalMonotone(current + 1, total);
        FillInline(Tree(), disk.blocks, all, current);
        NextId(all, current);
        direct := direct[current := rest[0]];
        rest := rest[1..];
        current := current + 1;
      }
    }

    /** The closure that fills the single-indirect block, which holds `first` ids. */
    method FillIndirect1(first: nat, total: nat, newBlocks: seq<u32>, disk: Disk, ghost all: seq<u32>)
      returns (current: nat, rest: seq<u32>)
      requires 0 < total && first <= total && |all| == Total(28 + total)
      requires After1(first) <= |all| && newBlocks == all[After1(first)..]
      requires Filled(Tree(), disk.blocks, all, After1(first))
      modifies disk
      ensures current == if first >= 128 then first else if total < 128 then total else 128
      ensures After1(current) <= |all| && rest == all[After1(current)..]
      ensures Filled(Tree(), disk.blocks, all, After1(current))
      ensures OnlyIndex(old(disk.blocks), disk.blocks, all)
    {
      hide Filled, OnlyIndex, WithWord, Total;
      current, rest := first, newBlocks;
      OnlyIndexRefl(disk.blocks, all);
      After1Cases(first);
      while current < total && current < INODE_INDIRECT1_COUNT
        invariant first <= current <= total && (current <= 128 || current == first)
        invariant After1(current) <= |all| && rest == all[After1(current)..]
        invariant Filled(Tree(), disk.blocks, all, After1(current))
        invariant OnlyIndex(old(disk.blocks), disk.blocks, all)
      {
        After1Cases(current);
        After1Cases(current + 1);
        TotalMonotone(28 + current + 1, 28 + total);
        FillWord(Tree(), disk.blocks, all, 29 + current);
        NextId(all, 29 + current);
        ghost var before := disk.blocks;
        disk.blocks := disk.blocks[indirect1 := WithWord(disk.blocks[indirect1], current, rest[0])];
        OnlyIndexTrans(old(disk.blocks), before, disk.blocks, all);
        rest := rest[1..];
        current := current + 1;
      }
    }

    /** The closure that fills the double-indirect block from `(a, b)` to `(a1, b1)`. */
    method FillIndirect2(a: nat, b: nat, a1: nat, b1: nat, newBlocks: seq<u32>, disk: Disk, ghost all: seq<u32>)
      requires b < 128 && b1 < 128 && (a < a1 || (a == a1 && b <= b1))
      requires SubPos(a, b) <= |all| == SubPos(a1, b1) && newBlocks == all[SubPos(a, b)..]
      requires Filled(Tree(), disk.blocks, all, SubPos(a, b))
      modifies disk
      ensures Filled(Tree(), disk.blocks, all, |all|)
      ensures OnlyIndex(old(disk.blocks), disk.blocks, all)
    {
      hide Filled, OnlyIndex, WithWord, Word, Parent, WordOf, SubPos;
      var a0: nat, b0: nat, rest := a, b, newBlocks;
      OnlyIndexRefl(disk.blocks, all);
      FilledBound(Tree(), disk.blocks, all, SubPos(a, b));
      while a0 < a1 || (a0 == a1 && b0 < b1)
        invariant b0 < 128 && (a0 < a1 || (a0 == a1 && b0 <= b1))
        invariant SubPos(a0, b0) <= |all| && rest == all[SubPos(a0, b0)..]
        invariant Filled(Tree(), disk.blocks, all, SubPos(a0, b0))
        invariant OnlyIndex(old(disk.blocks), disk.blocks, all)
        decreases a1 - a0, 128 - b0
      {
        SubRoom(a0, b0, a1, b1);
        SubPlaces(a0, b0);
        ghost var before := disk.blocks;
        if b0 == 0 {
          FillWord(Tree(), disk.blocks, all, SubPos(a0, 0));
          NextId(all, SubPos(a0, 0));
          disk.blocks := disk.blocks[indirect2 := WithWord(disk.blocks[indirect2], a0, rest[0])];
          rest := rest[1..];
        } else {
          OnlyIndexRefl(disk.blocks, all);
        }
        ghost var middle := disk.blocks;
        SubStored(Tree(), disk.blocks, all, a0, b0);
        FillWord(Tree(), disk.blocks, all, 158 + 129 * a0 + b0 + 1);
        NextId(all, 158 + 129 * a0 + b0 + 1);
        var index := Word(disk.blocks[indirect2], a0);
        disk.blocks := disk.blocks[index := WithWord(disk.blocks[index], b0, rest[0])];
        rest := rest[1..];
        OnlyIndexTrans(before, middle, disk.blocks, all);
        OnlyIndexTrans(old(disk.blocks), before, disk.blocks, all);
        b0 := b0 + 1;
        if b0 == INODE_INDIRECT1_COUNT {
          b0 := 0;
          a0 := a0 + 1;
        }
      }
    }

    /** `increase_size`: the supplied ids are appended to the list. */
    method IncreaseSize(newSize: nat, newBlocks: seq<u32>, disk: Disk, ghost s: seq<u32>)
      requires Rep(Tree(), disk.blocks, s) && |s| == TotalBlocks(size)
      requires size <= newSize <= MAX_SIZE && |newBlocks| == TotalBlocks(newSize) - TotalBlocks(size)
      requires Distinct(s + newBlocks) && Within(newBlocks, disk.blocks)
      modifies this`size, this`direct, this`indirect1, this`indirect2, disk
      ensures size == newSize && Rep(Tree(), disk.blocks, s + newBlocks)
      ensures OnlyIndex(old(disk.blocks), disk.blocks, s + newBlocks)
    {
      hide Rep, Filled, OnlyIndex, Distinct, SubPos, Total;
      ghost var all := s + newBlocks;
      var current := DataBlocks(size);
      size := newSize;
      var total := DataBlocks(newSize);
      TotalMonotone(current, total);
      TotalCases(total);
      FilledStart(Tree(), disk.blocks, s, newBlocks);
      assert all[|s|..] == newBlocks;
      var rest;
      current, rest := FillDirect(current, total, newBlocks, disk, all);
      TotalCases(current);
      OnlyIndexRefl(disk.blocks, all);
      if total <= INODE_DIRECT_COUNT {
        FilledEnd(Tree(), disk.blocks, all);
        return;
      }
      IncreaseIndirect1(current, total, rest, disk, all);
    }

    /** The part of `increase_size` after the direct ids. */
    method IncreaseIndirect1(first: nat, end: nat, newBlocks: seq<u32>, disk: Disk, ghost all: seq<u32>)
      requires 28 <= first <= end && 28 < end <= MAX_DATA_BLOCKS && |all| == Total(end)
      requires Total(first) <= |all| && newBlocks == all[Total(first)..]
      requires Filled(Tree(), disk.blocks, all, Total(first))
      modifies this`indirect1, this`indirect2, disk
      ensures Rep(Tree(), disk.blocks, all) && OnlyIndex(old(disk.blocks), disk.blocks, all)
    {
      hide Rep, Filled, OnlyIndex, Distinct, SubPos, Total;
      var rest := newBlocks;
      TotalCases(first);
      TotalCases(end);
      // alloc indirect1
      if first == INODE_DIRECT_COUNT {
        FillInline(Tree(), disk.blocks, all, 28);
        NextId(all, 28);
        indirect1 := rest[0];
        rest := rest[1..];
      }
      After1Cases(first - 28);
      var total := end - INODE_DIRECT_COUNT;
      var current;
      current, rest := FillIndirect1(first - INODE_DIRECT_COUNT, total, rest, disk, all);
      After1Cases(total);
      if total <= INODE_INDIRECT1_COUNT {
        FilledEnd(Tree(), disk.blocks, all);
        return;
      }
      ghost var middle := disk.blocks;
      IncreaseIndirect2(current, total, rest, disk, all);
      OnlyIndexTrans(old(disk.blocks), middle, disk.blocks, all);
    }

    /** The part of `increase_size` after the single-indirect block is full. */
    method IncreaseIndirect2(first: nat, end: nat, newBlocks: seq<u32>, disk: Disk, ghost all: seq<u32>)
      requires 128 <= first <= end && 128 < end && |all| == Total(28 + end)
      requires After1(first) <= |all| && newBlocks == all[After1(first)..]
      requires Filled(Tree(), disk.blocks, all, After1(first))
      modifies this`indirect2, disk
      ensures Rep(Tree(), disk.blocks, all) && OnlyIndex(old(disk.blocks), disk.blocks, all)
    {
      hide Rep, Filled, OnlyIndex, Distinct, SubPos, Total;
      var rest := newBlocks;
      After1Cases(first);
      After1Cases(end);
      TotalCases(28 + end);
      // alloc indirect2
      if first == INODE_INDIRECT1_COUNT {
        FillInline(Tree(), disk.blocks, all, 157);
        NextId(all, 157);
        indirect2 := rest[0];
        rest := rest[1..];
      }
      var current, total := first - INODE_INDIRECT1_COUNT, end - INODE_INDIRECT1_COUNT;
      SubPosZero();
      FillIndirect2(current / INODE_INDIRECT1_COUNT, current % INODE_INDIRECT1_COUNT,
                    total / INODE_INDIRECT1_COUNT, total % INODE_INDIRECT1_COUNT, rest, disk, all);
      FilledEnd(Tree(), disk.blocks, all);
    }

    /** The loop that collects and zeroes the direct ids. */
    method ClearDirect(data: nat, disk: Disk, ghost s: seq<u32>) returns (v: seq<u32>)
      requires Rep(Tree(), disk.blocks, s) && |s| == Total(data)
      modifies this`direct
      ensures |direct| == 28 && v == s[..if data < 28 then data else 28]
    {
      hide Rep, Total;
      ghost var node := Tree();
      RepDirect(node, disk.blocks, s);
      TotalCases(data);
      v := [];
      var current := 0;
      while current < data && current < INODE_DIRECT_COUNT
        invariant 0 <= current <= data && current <= 28 && |direct| == 28 && v == s[..current]
        invariant forall p :: current <= p < 28 ==> direct[p] == node.direct[p]
      {
        RepAt(node, disk.blocks, s, current);
        v := v + [direct[current]];
        direct := direct[current := 0];
        current := current + 1;
      }
    }

    /** `clear_size`: returns the list and forgets it. */
    method ClearSize(disk: Disk, ghost s: seq<u32>) returns (v: seq<u32>)
      requires Rep(Tree(), disk.blocks, s) && |s| == TotalBlocks(size)
      modifies this`size, this`direct, this`indirect1, this`indirect2
      ensures v == s && size == 0 && forall blocks :: Rep(Tree(), blocks, [])
    {
      hide Rep, Total, Word, SubPos;
      var data := DataBlocks(size);
      ghost var node := Tree();
      TotalCases(data);
      size := 0;
      v := ClearDirect(data, disk, s);
      RepEmpty(Tree());
      if data <= INODE_DIRECT_COUNT { return; }
      RepAt(node, disk.blocks, s, 28);
      v := v + [indirect1];
      data := data - INODE_DIRECT_COUNT;
      var got := ListWords(indirect1, if data < 128 then data else 128, disk, node, s, 28);
      v := v + got;
      indirect1 := 0;
      RepEmpty(Tree());
      if data <= INODE_INDIRECT1_COUNT { return; }
      RepAt(node, disk.blocks, s, 157);
      v := v + [indirect2];
      data := data - INODE_INDIRECT1_COUNT;
      RepBound(node, disk.blocks, s);
      LastSub(data);
      assert data <= INODE_INDIRECT2_COUNT;
      got := ListIndirect2(indirect2, data / INODE_INDIRECT1_COUNT, data % INODE_INDIRECT1_COUNT, disk, node, s);
      v := v + got;
      indirect2 := 0;
      RepEmpty(Tree());
    }
  }

  lemma RepEmpty(node: Node)
    requires |node.direct| == 28
    ensures forall blocks :: Rep(node, blocks, [])
  {
  }

  /** A list within the tree's bounds has no more double-indirect data blocks than the tree can index. */
  lemma LastSub(data: nat)
    ensures SubPos(data / 128, data % 128) <= 158 + 129 * 128 ==> data <= INODE_INDIRECT2_COUNT
  {
  }

  lemma ChildPlaces(q: nat, w: nat)
    requires w < 128 && (q == 28 || (q >= 158 && (q - 158) % 129 == 0))
    ensures !Inline(q + 1 + w) && Parent(q + 1 + w) == q && WordOf(q + 1 + w) == w
  {
  }

  /** The loop over the first `count` ids of an index block. */
  method ListWords(id: u32, count: nat, disk: Disk, ghost node: Node, ghost s: seq<u32>, ghost q: nat)
    returns (v: seq<u32>)
    requires Rep(node, disk.blocks, s) && count <= 128 && (q == 28 || (q >= 158 && (q - 158) % 129 == 0))
    requires q + 1 + count <= |s| && id == s[q]
    ensures v == s[q + 1..q + 1 + count]
  {
    hide Rep, Word, Parent, WordOf;
    RepAt(node, disk.blocks, s, q);
    v := [];
    var w := 0;
    while w < count
      invariant 0 <= w <= count && v == s[q + 1..q + 1 + w]
    {
      ChildPlaces(q, w);
      RepAt(node, disk.blocks, s, q + 1 + w);
      v := v + [Word(disk.blocks[id], w)];
      w := w + 1;
    }
  }

  lemma OneMoreSub(s: seq<u32>, a: nat)
    requires 158 + 129 * (a + 1) <= |s|
    ensures var q := 158 + 129 * a;
            s[158..q] + [s[q]] + s[q + 1..q + 129] == s[158..158 + 129 * (a + 1)]
  {
  }

  /** The closure over the double-indirect block: `a1` full sub-blocks, then `b1` ids of the last one. */
  method ListIndirect2(id: u32, a1: nat, b1: nat, disk: Disk, ghost node: Node, ghost s: seq<u32>) returns (v: seq<u32>)
    requires Rep(node, disk.blocks, s) && b1 < 128 && |s| == SubPos(a1, b1) && |s| > 157 && id == s[157]
    ensures v == s[158..]
  {
    hide Rep, Word, Parent, WordOf, SubPos;
    RepAt(node, disk.blocks, s, 157);
    SubPosAt(a1, b1);
    RepBound(node, disk.blocks, s);
    v := [];
    var a := 0;
    while a < a1
      invariant 0 <= a <= a1 && v == s[158..158 + 129 * a]
    {
      SubPlaces(a, 0);
      RepAt(node, disk.blocks, s, 158 + 129 * a);
      var entry := Word(disk.blocks[id], a);
      var got := ListWords(entry, 128, disk, node, s, 158 + 129 * a);
      OneMoreSub(s, a);
      v := v + [entry] + got;
      a := a + 1;
    }
    if b1 > 0 {
      SubPlaces(a1, 0);
      RepAt(node, disk.blocks, s, 158 + 129 * a1);
      var entry := Word(disk.blocks[id], a1);
      var got := ListWords(entry, b1, disk, node, s, 158 + 129 * a1);
      v := v + [entry] + got;
    }
  }

  lemma RepBound(node: Node, blocks: Blocks, s: seq<u32>)
    requires Rep(node, blocks, s)
    ensures |s| <= 158 + 129 * 128
  {
  }

  // ----- any number of calls -----

  /** One `increase_size` call: the new size and the ids supplied. */
  datatype Growth = Growth(size: nat, ids: seq<u32>)

  function Concat(calls: seq<Growth>): seq<u32> {
    if calls == [] then [] else Concat(calls[..|calls| - 1]) + calls[|calls| - 1].ids
  }

  function FinalSize(calls: seq<Growth>): nat { if calls == [] then 0 else calls[|calls| - 1].size }

  /** Sizes never decrease, and each call gets `blocks_num_needed` ids. */
  ghost predicate Supplied(calls: seq<Growth>) {
    forall i :: 0 <= i < |calls| ==>
      && FinalSize(calls[..i]) <= calls[i].size <= MAX_SIZE
      && |calls[i].ids| == TotalBlocks(calls[i].size) - TotalBlocks(FinalSize(calls[..i]))
  }

  lemma {:induction false} ConcatPrefix(calls: seq<Growth>, i: nat)
    requires i <= |calls|
    ensures Concat(calls[..i]) <= Concat(calls)
    decreases |calls| - i
  {
    if i == |calls| {
      assert calls[..i] == calls;
    } else {
      ConcatPrefix(calls, i + 1);
      assert calls[..i + 1][..i] == calls[..i];
    }
  }

  lemma DistinctPrefix(a: seq<u32>, b: seq<u32>, blocks: Blocks)
    requires a <= b && Distinct(b) && Within(b, blocks)
    ensures Distinct(a) && Within(a, blocks)
  {
  }

  /** From an empty inode, after any calls, `clear_size` returns everything supplied, in order, and nothing else. */
  method FillAndClear(calls: seq<Growth>, disk: Disk) returns (v: seq<u32>)
    requires Supplied(calls) && Distinct(Concat(calls)) && Within(Concat(calls), disk.blocks)
    modifies disk
    ensures v == Concat(calls) && |v| == TotalBlocks(FinalSize(calls))
  {
    hide Rep, Distinct, Within, TotalBlocks;
    var inode := new DiskInode(false);
    assert TotalBlocks(0) == 0 by { TotalZero(); }
    var i := 0;
    while i < |calls|
      invariant 0 <= i <= |calls|
      invariant Rep(inode.Tree(), disk.blocks, Concat(calls[..i])) && disk.blocks.Keys == old(disk.blocks.Keys)
      invariant inode.size == FinalSize(calls[..i]) && |Concat(calls[..i])| == TotalBlocks(inode.size)
    {
      ghost var s := Concat(calls[..i]);
      assert calls[..i + 1][..i] == calls[..i];
      ConcatPrefix(calls, i + 1);
      DistinctPrefix(s + calls[i].ids, Concat(calls), old(disk.blocks));
      NewWithin(s, calls[i].ids, old(disk.blocks), disk.blocks);
      inode.IncreaseSize(calls[i].size, calls[i].ids, disk, s);
      i := i + 1;
    }
    assert calls[..i] == calls;
    v := inode.ClearSize(disk, Concat(calls));
  }

  lemma TotalZero()
    ensures TotalBlocks(0) == 0
  {
  }

  lemma NewWithin(s: seq<u32>, ids: seq<u32>, b0: Blocks, b1: Blocks)
    requires Within(s + ids, b0) && b0.Keys == b1.Keys
    ensures Within(ids, b1)
  {
    forall k | 0 <= k < |ids| ensures ids[k] in b1 {
      assert (s + ids)[|s| + k] == ids[k];
    }
  }
}
