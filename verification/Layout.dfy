/**
 Where easy-fs puts things on the device (easy-fs/src/efs.rs): super block,
 inode bitmap, inode area, data bitmap, data area.  A disk inode is 132 bytes,
 so three fit in a block, while the inode area is sized by bytes.
 */
module Layout {
  const INODE_SIZE := 132
  const BLOCK_BITS := 4096

  datatype Layout = Layout(inodeArea: nat, inodeStart: nat, dataBitmap: nat, dataBitmapStart: nat, dataStart: nat,
      dataArea: nat)

  function InodeArea(inodeBitmap: nat): nat { (inodeBitmap * BLOCK_BITS * INODE_SIZE + 511) / 512 }

  /** The inode area is the least number of blocks that holds 132 bytes for each of 4096 inodes a bitmap block. */
  lemma InodeAreaLeast(inodeBitmap: nat, n: nat)
    ensures 512 * n >= inodeBitmap * 4096 * 132 <==> n >= InodeArea(inodeBitmap)
  {
    var bytes := inodeBitmap * 4096 * 132;
    var q := (bytes + 511) / 512;
    assert 512 * q <= bytes + 511 < 512 * (q + 1);
  }

  /** The sizes computed by `create`. */
  function Plan(total: nat, inodeBitmap: nat): Layout
    requires total >= 1 + inodeBitmap + InodeArea(inodeBitmap)
  {
    var inodeTotal := inodeBitmap + InodeArea(inodeBitmap);
    var dataTotal := total - 1 - inodeTotal;
    var dataBitmap := (dataTotal + 4096) / 4097;
    Layout(InodeArea(inodeBitmap), 1 + inodeBitmap, dataBitmap, 1 + inodeTotal, 1 + inodeTotal + dataBitmap,
        dataTotal - dataBitmap)
  }

  /** The areas follow one another without gap or overlap up to the last block, and every data block has a bit. */
  lemma PlanFits(total: nat, inodeBitmap: nat)
    requires total >= 1 + inodeBitmap + InodeArea(inodeBitmap)
    ensures var l := Plan(total, inodeBitmap);
            && l.inodeStart + l.inodeArea == l.dataBitmapStart && l.dataBitmapStart + l.dataBitmap == l.dataStart
            && l.dataStart + l.dataArea == total && l.dataArea <= l.dataBitmap * BLOCK_BITS
            && l.dataBitmap * BLOCK_BITS < l.dataArea + BLOCK_BITS + 1
  {
  }

  /** There may be bits that stand for no block: exactly when the last 4097-block group is incomplete. */
  lemma SpareBits(total: nat, inodeBitmap: nat)
    requires total >= 1 + inodeBitmap + InodeArea(inodeBitmap)
    ensures var l := Plan(total, inodeBitmap);
            l.dataArea == l.dataBitmap * BLOCK_BITS <==> (total - 1 - inodeBitmap - InodeArea(inodeBitmap)) % 4097 == 0
  {
  }

  /** `get_disk_inode_pos`. */
  function InodePos(l: Layout, id: nat): (nat, nat) { (l.inodeStart + id / 3, id % 3 * INODE_SIZE) }

  /** `inode_number`. */
  function InodeNumber(l: Layout, pos: (nat, nat)): nat
    requires l.inodeStart <= pos.0
  {
    (pos.0 - l.inodeStart) * 3 + pos.1 / INODE_SIZE
  }

  /** Positions fit in their block, do not overlap, and give the number back. */
  lemma InodePosRoundTrip(l: Layout, a: nat, b: nat)
    ensures InodeNumber(l, InodePos(l, a)) == a && InodePos(l, a).1 + INODE_SIZE <= 512
    ensures a != b && InodePos(l, a).0 == InodePos(l, b).0 ==>
              InodePos(l, a).1 + INODE_SIZE <= InodePos(l, b).1 || InodePos(l, b).1 + INODE_SIZE <= InodePos(l, a).1
  {
  }

  /** An inode lies inside the inode area iff its number is below three times the area's blocks. */
  lemma InodeContained(l: Layout, id: nat)
    ensures l.inodeStart <= InodePos(l, id).0 < l.inodeStart + l.inodeArea <==> id < 3 * l.inodeArea
  {
  }

  /** The bitmap has more bits than that: an inode number it may hand out lies in the data bitmap. */
  lemma InodeEscapes(total: nat, inodeBitmap: nat)
    requires total >= 1 + inodeBitmap + InodeArea(inodeBitmap) && inodeBitmap > 0
    ensures var l := Plan(total, inodeBitmap);
            3 * l.inodeArea < inodeBitmap * BLOCK_BITS && InodePos(l, 3 * l.inodeArea).0 == l.dataBitmapStart
  {
  }
}
