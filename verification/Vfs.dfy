/**
 Directory operations on the file system (easy-fs/src/vfs.rs,
 os/src/fs/inode.rs), down to the bytes of directory files: each one does to
 the tree read off those bytes what its counterpart in `DirTree` does.
 */
module Vfs {
  import opened Wrappers
  import opened Sequences
  import opened BlockDevice
  import opened IndexTree
  import opened FileBytes
  import opened FileSystem
  import opened DirBytes
  import opened V = Volume
  import T = DirTree
  import L = Layout
  import B = Bitmap

  // ----- the tree behind the bytes -----

  function ItemOf(doc: Doc): T.Item { T.Item(doc.isDir, doc.parent, if doc.isDir then EntriesOf(doc.bytes) else []) }

  function TreeOf(docs: Docs): T.Tree { map i | i in docs :: ItemOf(docs[i]) }

  /** Every directory's bytes are entries. */
  ghost predicate DirsOk(docs: Docs) { forall i :: i in docs && docs[i].isDir ==> DirOk(docs[i].bytes) }

  /** The bytes of regular files. */
  function DataOf(docs: Docs): map<u32, seq<byte>> { map i | i in docs && !docs[i].isDir :: docs[i].bytes }

  /** What the inodes, blocks and bitmaps stand for. */
  ghost function Stands(fs: EasyFileSystem): Volume
    requires fs.Valid()
    reads fs, fs.disk, fs.dataBitmap, fs.inodeBitmap
  {
    Volume(TreeOf(fs.View()), DataOf(fs.View()), fs.FreeCount(), fs.InodeLimit(), fs.NoLeak())
  }

  /** Valid below, and directories hold entries. */
  ghost predicate Ready(fs: EasyFileSystem)
    reads fs, fs.disk, fs.dataBitmap, fs.inodeBitmap
  {
    fs.Valid() && DirsOk(fs.View())
  }

  /** Directories hold whole entries, perhaps one whose name is not terminated. */
  ghost predicate DirsWhole(docs: Docs) { forall i :: i in docs && docs[i].isDir ==> Whole(docs[i].bytes) }

  /** As `Ready`, but a name may lack its NUL. */
  ghost predicate Steady(fs: EasyFileSystem)
    reads fs, fs.disk, fs.dataBitmap, fs.inodeBitmap
  {
    fs.Valid() && DirsWhole(fs.View())
  }

  lemma ReadySteady(fs: EasyFileSystem)
    requires Ready(fs)
    ensures Steady(fs)
  {
    hide EasyFileSystem.Valid, EasyFileSystem.View;
  }

  lemma DataUpdate(docs: Docs, i: u32, doc: Doc)
    requires i in docs ==> docs[i].isDir == doc.isDir
    ensures DataOf(docs[i := doc]) == if doc.isDir then DataOf(docs) else DataOf(docs)[i := doc.bytes]
  {
  }

  lemma DataRemove(docs: Docs, i: u32)
    ensures DataOf(docs - {i}) == DataOf(docs) - {i}
  {
  }

  lemma TreeUpdate(docs: Docs, i: u32, doc: Doc)
    ensures TreeOf(docs[i := doc]) == TreeOf(docs)[i := ItemOf(doc)]
  {
    hide EntriesOf;
  }

  lemma DirsUpdate(docs: Docs, i: u32, doc: Doc)
    requires DirsOk(docs)
    ensures DirsOk(docs[i := doc]) <==> (doc.isDir ==> DirOk(doc.bytes))
    ensures (doc.isDir ==> Whole(doc.bytes)) ==> DirsWhole(docs[i := doc])
  {
    hide Terminated;
    var after := docs[i := doc];
    if DirsOk(after) && doc.isDir { assert i in after && after[i] == doc; }
  }

  lemma DirsReplace(docs: Docs, i: u32, doc: Doc)
    requires DirsWhole(docs) && i in docs && docs[i].isDir && doc.isDir && Whole(doc.bytes)
    requires DirOk(doc.bytes) <==> DirOk(docs[i].bytes)
    ensures DirsWhole(docs[i := doc]) && (DirsOk(docs[i := doc]) <==> DirsOk(docs))
  {
    hide DirOk, Whole;
    var after := docs[i := doc];
    if DirsOk(after) {
      forall j | j in docs && docs[j].isDir ensures DirOk(docs[j].bytes) { assert DirOk(after[j].bytes); }
    }
  }

  // ----- reading directories -----

  /** What an inode's stored size and kind say about its document. */
  lemma DocAt(fs: EasyFileSystem, i: u32)
    requires fs.Valid() && i in fs.files
    ensures fs.lists.Keys == fs.files.Keys && fs.View().Keys == fs.files.Keys
    ensures i in fs.View() && fs.View()[i].isDir == fs.files[i].isDir && fs.View()[i].parent == fs.files[i].parent
    ensures |fs.View()[i].bytes| == fs.files[i].size <= MAX_SIZE
  {
    hide Content;
    assert FileOk(fs.files[i].node, fs.files[i].size, fs.disk.blocks, fs.lists[i]);
    ContentAt(fs.disk.blocks, fs.lists[i], fs.files[i].size);
  }

  lemma ViewKeys(fs: EasyFileSystem)
    requires fs.Valid()
    ensures fs.lists.Keys == fs.files.Keys && fs.View().Keys == fs.files.Keys
  {
    hide FsOk;
  }

  /** The same seen from the volume. */
  lemma ItemAt(fs: EasyFileSystem, i: u32)
    requires fs.Valid() && i in fs.files
    ensures i in Stands(fs).tree && Stands(fs).tree[i].isDir == fs.files[i].isDir
    ensures Stands(fs).tree[i].parent == fs.files[i].parent
    ensures i in Stands(fs).data <==> !fs.files[i].isDir
    ensures i in Stands(fs).data ==>
              i in fs.View() && Stands(fs).data[i] == fs.View()[i].bytes && |Stands(fs).data[i]| == fs.files[i].size
    ensures fs.files[i].isDir && DirsWhole(fs.View()) ==> DirSize(Stands(fs).tree, i) == fs.files[i].size
  {
    hide FsOk, EntriesOf, ViewOf, Whole;
    DocAt(fs, i);
    if fs.files[i].isDir && DirsWhole(fs.View()) { WholeEntries(fs.View()[i].bytes); }
  }

  lemma StandsBy(fs: EasyFileSystem)
    requires fs.Valid()
    ensures fs.lists.Keys == fs.files.Keys && fs.View().Keys == fs.files.Keys && Stands(fs).tree.Keys == fs.files.Keys
    ensures fs.dataBitmap != fs.inodeBitmap
    ensures Stands(fs) == Volume(TreeOf(fs.View()), DataOf(fs.View()), fs.FreeCount(), fs.InodeLimit(), fs.NoLeak())
  {
    hide FsOk, EntriesOf;
    ViewKeys(fs);
  }

  /** One `read_at` of 32 bytes. */
  method ReadChunk(fs: EasyFileSystem, d: u32, k: nat) returns (bytes: seq<byte>)
    requires fs.Valid() && d in fs.files && k < fs.files[d].size / DIRENT_SZ
    ensures DIRENT_SZ * k + DIRENT_SZ <= |fs.View()[d].bytes| && bytes == Chunk(fs.View()[d].bytes, k)
  {
    hide FsOk, ViewOf;
    DocAt(fs, d);
    var buf := new byte[DIRENT_SZ];
    var n := fs.Read(d, DIRENT_SZ * k, buf);
    assert n == DIRENT_SZ;
    bytes := buf[..];
  }

  /** The search loop of `find_inode_id` and `remove_directory_entry`; `name()` finds the NUL it looks for. */
  method FindIndex(fs: EasyFileSystem, d: u32, name: T.Name) returns (i: nat)
    requires fs.Valid() && d in fs.files && d in fs.View() && Scannable(fs.View()[d].bytes, name)
    ensures i == T.IndexOf(EntriesOf(fs.View()[d].bytes), name)
  {
    hide FsOk, T.IndexOf, Decode, ViewOf, Terminated;
    DocAt(fs, d);
    var count := fs.files[d].size / DIRENT_SZ;
    ghost var entries := EntriesOf(fs.View()[d].bytes);
    i := 0;
    while i < count
      invariant i <= count && forall j :: 0 <= j < i ==> entries[j].name != name
    {
      var bytes := ReadChunk(fs, d, i);
      assert Terminated(bytes);
      if Decode(bytes).name == name { break; }
      i := i + 1;
    }
    IndexIs(entries, name, i);
  }

  lemma IndexIs(entries: seq<T.Entry>, name: T.Name, i: nat)
    requires i <= |entries| && (i < |entries| ==> entries[i].name == name)
    requires forall j :: 0 <= j < i ==> entries[j].name != name
    ensures T.IndexOf(entries, name) == i
  {
  }

  /** `find_inode_id`. */
  method FindInodeId(fs: EasyFileSystem, d: u32, name: T.Name) returns (r: Option<u32>)
    requires Ready(fs) && d in fs.files
    ensures d in Stands(fs).tree && r == T.Find(Stands(fs).tree[d], name)
  {
    hide FsOk, T.IndexOf, Decode, ViewOf, DirOk;
    DocAt(fs, d);
    TreeAt(fs.View(), d);
    if !fs.files[d].isDir { return None; }
    DirScannable(fs.View()[d].bytes, name);
    var i := FindIndex(fs, d, name);
    if i >= fs.files[d].size / DIRENT_SZ { return None; }
    var bytes := ReadChunk(fs, d, i);
    r := Some(Decode(bytes).id);
  }

  // ----- writing directories -----

  /** Growing a directory by one entry, as `create_as`, `link` and `rename` do, for any name.  Without room the kernel
      runs out of memory; a name of more than 28 bytes then panics; one of 28 without NUL leaves an entry that cannot be
      read, though what was found before still is. */
  method AddDirent(fs: EasyFileSystem, d: u32, name: T.Name, id: u32) returns (r: Outcome<()>)
    requires Ready(fs) && d in fs.files && fs.files[d].isDir
    modifies fs, fs.disk, fs.dataBitmap
    ensures d in old(Stands(fs)).tree
    ensures match r
            case OutOfMemory => !Room(old(Stands(fs)), d)
            case Panic => Room(old(Stands(fs)), d) && |name| > ARRAY_LEN
            case Ok(_) => Room(old(Stands(fs)), d) && |name| <= ARRAY_LEN && Added(old(Stands(fs)), fs, d, name, id)
  {
    hide FsOk, Decode, Encode, Written, Exact, TotalBlocks, DirOk, EntriesOf, ViewOf, TreeOf, DataOf, Needed, Stands,
         EasyFileSystem.Valid, EasyFileSystem.NoLeak, EasyFileSystem.View, EasyFileSystem.FreeCount, Stem, Added;
    StandsBy(fs);
    DocAt(fs, d);
    ItemAt(fs, d);
    ReadySteady(fs);
    ghost var docs, v := fs.View(), Stands(fs);
    WholeEntries(docs[d].bytes);
    var count := fs.files[d].size / DIRENT_SZ;
    if |name| > ARRAY_LEN {
      // The directory has grown by zeros when `DirEntry::new` fails.
      var grown := fs.Write(d, DIRENT_SZ * count, Zeros(DIRENT_SZ));
      return if grown then Panic else OutOfMemory;
    }
    var e := T.Entry(name, id);
    var ok := fs.Write(d, DIRENT_SZ * count, Encode(e));
    if !ok { return OutOfMemory; }
    AddedBy(fs, docs, v, d, e);
    r := Ok(());
  }

  /** The volume with one more entry in `d`; `x` of the entries before can still be looked up. */
  ghost predicate Added(v: Volume, fs: EasyFileSystem, d: u32, name: T.Name, id: u32)
    requires d in v.tree
    reads fs, fs.disk, fs.dataBitmap, fs.inodeBitmap
  {
    && Steady(fs) && (Ready(fs) <==> |Stem(name)| < ARRAY_LEN) && v.free >= Spent(v.tree, d)
    && Stands(fs) == v.(tree := T.AddEntry(v.tree, d, Stem(name), id), free := v.free - Spent(v.tree, d))
    && FoundStays(v.tree, fs)
  }

  /** Whatever the tree `t` has an entry for can be looked up. */
  ghost predicate FoundStays(t: T.Tree, fs: EasyFileSystem)
    requires fs.Valid()
    reads fs, fs.disk, fs.dataBitmap, fs.inodeBitmap
  {
    forall c, x :: c in t && c in fs.View() && T.Find(t[c], x).Some? ==> Scannable(fs.View()[c].bytes, x)
  }

  lemma AddedBy(fs: EasyFileSystem, docs: Docs, v: Volume, d: u32, e: T.Entry)
    requires fs.Valid() && DirsOk(docs) && d in docs && docs[d].isDir && |e.name| <= ARRAY_LEN
    requires v.tree == TreeOf(docs) && v.data == DataOf(docs) && fs.InodeLimit() == v.inodes && fs.NoLeak() == v.tidy
    requires d in v.tree && fs.FreeCount() == v.free - Spent(v.tree, d)
    requires var at := DIRENT_SZ * (|docs[d].bytes| / DIRENT_SZ);
             fs.View() == docs[d := docs[d].(bytes := Written(docs[d].bytes, at, Encode(e)))]
    ensures Added(v, fs, d, e.name, e.id)
  {
    hide FsOk, Decode, Encode, Written, DirOk, EntriesOf, ViewOf, TreeOf, DataOf, Spent, Stands, EasyFileSystem.Valid,
         EasyFileSystem.NoLeak, EasyFileSystem.View, EasyFileSystem.FreeCount, Stem, FoundStays;
    Appended(docs[d].bytes, e);
    StandsBy(fs);
    TreeUpdate(docs, d, fs.View()[d]);
    DataUpdate(docs, d, fs.View()[d]);
    DirsUpdate(docs, d, fs.View()[d]);
    TreeAt(docs, d);
    FoundKept(fs, docs, d, e);
  }

  lemma FoundKept(fs: EasyFileSystem, docs: Docs, d: u32, e: T.Entry)
    requires fs.Valid() && DirsOk(docs) && d in docs && docs[d].isDir && |e.name| <= ARRAY_LEN
    requires var at := DIRENT_SZ * (|docs[d].bytes| / DIRENT_SZ);
             fs.View() == docs[d := docs[d].(bytes := Written(docs[d].bytes, at, Encode(e)))]
    ensures FoundStays(TreeOf(docs), fs)
  {
    hide FsOk, Decode, Encode, Written, ViewOf, EasyFileSystem.Valid, EasyFileSystem.View, DirOk, Scannable, Stem,
         T.IndexOf, EntriesOf;
    ViewKeys(fs);
    Appended(docs[d].bytes, e);
    forall c, x | c in docs && T.Find(ItemOf(docs[c]), x).Some? ensures Scannable(fs.View()[c].bytes, x) {
      if c == d { NamedIsFound(EntriesOf(docs[d].bytes), x); } else { DirScannable(docs[c].bytes, x); }
    }
  }

  lemma NamedIsFound(entries: seq<T.Entry>, x: T.Name)
    ensures T.IndexOf(entries, x) < |entries| ==> entries[T.IndexOf(entries, x)].name == x
  {
  }

  lemma TreeAt(docs: Docs, d: u32)
    requires d in docs
    ensures d in TreeOf(docs) && TreeOf(docs)[d] == ItemOf(docs[d])
  {
  }

  /** A write that does not extend the file: there is always room. */
  method Overwrite(fs: EasyFileSystem, d: u32, offset: nat, buf: seq<byte>)
    requires fs.Valid() && d in fs.files && offset + |buf| <= fs.files[d].size && |buf| > 0
    modifies fs, fs.disk, fs.dataBitmap
    ensures fs.Valid() && (fs.NoLeak() <==> old(fs.NoLeak())) && fs.FreeCount() == old(fs.FreeCount())
    ensures d in old(fs.View())
    ensures fs.View() == old(fs.View())[d := old(fs.View()[d]).(bytes := Written(old(fs.View()[d]).bytes, offset, buf))]
  {
    hide FsOk, Exact, TotalBlocks, AreaOk, IsMarked, ViewOf, Written, Needed;
    DocAt(fs, d);
    NothingNeeded(fs.files[d].size, offset + |buf|);
    var ok := fs.Write(d, offset, buf);
  }

  lemma NothingNeeded(size: nat, end: nat)
    requires end <= size
    ensures Needed(size, end) == 0
  {
  }

  /** The loop that copies entries `idx + 1..` one place forward. */
  method ShiftForward(fs: EasyFileSystem, d: u32, idx: nat, count: nat)
    requires fs.Valid() && d in fs.files && fs.files[d].size == count * DIRENT_SZ && idx < count
    modifies fs, fs.disk, fs.dataBitmap
    ensures fs.Valid() && (fs.NoLeak() <==> old(fs.NoLeak())) && fs.FreeCount() == old(fs.FreeCount())
    ensures d in old(fs.View()) && |old(fs.View()[d]).bytes| == count * DIRENT_SZ
    ensures var doc := old(fs.View()[d]);
            fs.View() == old(fs.View())[d := doc.(bytes := Shifted(doc.bytes, idx, count - 1))]
  {
    hide FsOk, Exact, AreaOk, IsMarked, ViewOf, Written, Shifted, Slice, EasyFileSystem.Valid, EasyFileSystem.NoLeak,
         EasyFileSystem.View, EasyFileSystem.FreeCount;
    DocAt(fs, d);
    ghost var docs := fs.View();
    ghost var c := docs[d].bytes;
    var i := idx;
    ShiftNone(c, idx);
    while i < count - 1
      invariant idx <= i <= count - 1 && fs.Valid() && d in fs.files && fs.files[d].size == count * DIRENT_SZ
      invariant fs.lists.Keys == fs.files.Keys
      invariant fs.View() == docs[d := docs[d].(bytes := Shifted(c, idx, i))]
      invariant (fs.NoLeak() <==> old(fs.NoLeak())) && fs.FreeCount() == old(fs.FreeCount())
    {
      ShiftStep(c, idx, i);
      DocAt(fs, d);
      var next := ReadChunk(fs, d, i + 1);
      ChunkIsSlice(fs.View()[d].bytes, i + 1);
      Overwrite(fs, d, DIRENT_SZ * i, next);
      i := i + 1;
      ShiftLength(c, idx, i);
      ViewKeys(fs);
      DocAt(fs, d);
    }
  }

  lemma ShiftNone(c: seq<byte>, k: nat)
    requires DIRENT_SZ * k + DIRENT_SZ <= |c|
    ensures Shifted(c, k, k) == c
  {
  }

  lemma ShiftLength(c: seq<byte>, k: nat, i: nat)
    requires k <= i && DIRENT_SZ * i + DIRENT_SZ <= |c|
    ensures |Shifted(c, k, i)| == |c|
  {
  }

  lemma ChunkIsSlice(c: seq<byte>, k: nat)
    requires DIRENT_SZ * k + DIRENT_SZ <= |c|
    ensures Slice(c, DIRENT_SZ * k, DIRENT_SZ) == Chunk(c, k)
  {
  }

  /** The bytes without entry `k`. */
  function Cut(c: seq<byte>, k: nat): seq<byte>
    requires k < |c| / DIRENT_SZ
  {
    var n := |c| / DIRENT_SZ;
    ShiftLength(c, k, n - 1);
    Written(Shifted(c, k, n - 1), DIRENT_SZ * (n - 1), Zeros(DIRENT_SZ))[..DIRENT_SZ * (n - 1)]
  }

  /** Shift, clear the last entry, lower the size. */
  method CutDirent(fs: EasyFileSystem, d: u32, idx: nat, count: nat)
    requires fs.Valid() && d in fs.files && fs.files[d].size == count * DIRENT_SZ && idx < count
    modifies fs, fs.disk, fs.dataBitmap
    ensures fs.Valid() && (fs.NoLeak() <==> old(fs.NoLeak()) && old(fs.files[d].size) % 512 != 32)
    ensures fs.FreeCount() == old(fs.FreeCount())
    ensures d in old(fs.View()) && |old(fs.View()[d]).bytes| == count * DIRENT_SZ
    ensures fs.View() == old(fs.View())[d := old(fs.View()[d]).(bytes := Cut(old(fs.View()[d]).bytes, idx))]
  {
    hide FsOk, Exact, AreaOk, IsMarked, ViewOf, Written, Shifted, TotalBlocks, EasyFileSystem.Valid,
         EasyFileSystem.NoLeak, EasyFileSystem.View, EasyFileSystem.FreeCount;
    DocAt(fs, d);
    ghost var c := fs.View()[d].bytes;
    ShiftForward(fs, d, idx, count);
    ShiftLength(c, idx, count - 1);
    ClearedTail(Shifted(c, idx, count - 1), count);
    ViewKeys(fs);
    DocAt(fs, d);
    Overwrite(fs, d, DIRENT_SZ * (count - 1), Zeros(DIRENT_SZ));
    ViewKeys(fs);
    DocAt(fs, d);
    SameBlockCount(fs.files[d].size);
    fs.Shrink(d, (count - 1) * DIRENT_SZ);
  }

  lemma ClearedTail(c: seq<byte>, count: nat)
    requires |c| == count * DIRENT_SZ && count > 0
    ensures var c1 := Written(c, DIRENT_SZ * (count - 1), Zeros(DIRENT_SZ));
            |c1| == |c| && forall k :: DIRENT_SZ * (count - 1) <= k < |c| ==> c1[k] == 0
  {
  }

  lemma CutTree(docs: Docs, d: u32, name: T.Name, idx: nat)
    requires DirsWhole(docs) && d in docs && docs[d].isDir && Scannable(docs[d].bytes, name)
    requires idx == T.IndexOf(EntriesOf(docs[d].bytes), name) && idx < |docs[d].bytes| / DIRENT_SZ
    ensures var after := docs[d := docs[d].(bytes := Cut(docs[d].bytes, idx))];
            && DirsWhole(after) && (DirsOk(after) <==> DirsOk(docs))
            && TreeOf(after) == T.RemoveEntry(TreeOf(docs), d, name) && DataOf(after) == DataOf(docs)
    ensures T.Find(TreeOf(docs)[d], name).Some?
  {
    hide Written, Shifted, Decode, T.IndexOf, DirOk, EntriesOf, TreeOf, Whole, DirsOk, Terminated, Chunk;
    var doc := docs[d].(bytes := Cut(docs[d].bytes, idx));
    WholeEntries(docs[d].bytes);
    ScannedTo(docs[d].bytes, name);
    Removed(docs[d].bytes, idx);
    TreeAt(docs, d);
    TreeUpdate(docs, d, doc);
    DataUpdate(docs, d, doc);
    DirsReplace(docs, d, doc);
  }

  lemma ScannedTo(c: seq<byte>, name: T.Name)
    requires Scannable(c, name) && T.IndexOf(EntriesOf(c), name) < |c| / DIRENT_SZ
    ensures Terminated(Chunk(c, T.IndexOf(EntriesOf(c), name)))
  {
    hide Terminated, Decode, Chunk;
  }

  lemma AbsentTree(docs: Docs, d: u32, name: T.Name)
    requires d in docs && docs[d].isDir
    requires T.IndexOf(EntriesOf(docs[d].bytes), name) == |EntriesOf(docs[d].bytes)|
    ensures T.RemoveEntry(TreeOf(docs), d, name) == TreeOf(docs) && T.Find(TreeOf(docs)[d], name).None?
  {
    hide T.IndexOf, EntriesOf, DirOk;
  }

  /** `remove_directory_entry`. */
  method RemoveDirent(fs: EasyFileSystem, d: u32, name: T.Name) returns (found: bool)
    requires Steady(fs) && d in fs.files && fs.files[d].isDir
    requires d in fs.View() && Scannable(fs.View()[d].bytes, name)
    modifies fs, fs.disk, fs.dataBitmap
    ensures Steady(fs) && (Ready(fs) <==> old(Ready(fs)))
    ensures d in old(Stands(fs)).tree && found == T.Find(old(Stands(fs)).tree[d], name).Some?
    ensures var v := old(Stands(fs));
            Stands(fs) == v.(tree := T.RemoveEntry(v.tree, d, name), tidy := v.tidy && (found ==>
                DirSize(v.tree, d) % 512 != 32))
  {
    hide FsOk, Exact, AreaOk, IsMarked, ViewOf, Decode, T.IndexOf, DirOk, EntriesOf, TreeOf, DataOf, Cut, T.RemoveEntry,
         T.Find, EasyFileSystem.Valid, EasyFileSystem.NoLeak, EasyFileSystem.View, EasyFileSystem.FreeCount, Stands,
         Scannable, DirsOk;
    StandsBy(fs);
    DocAt(fs, d);
    ItemAt(fs, d);
    ghost var docs := fs.View();
    WholeEntries(docs[d].bytes);
    var count := fs.files[d].size / DIRENT_SZ;
    var idx := FindIndex(fs, d, name);
    if idx >= count {
      IndexBound(EntriesOf(docs[d].bytes), name);
      AbsentTree(docs, d, name);
      return false;
    }
    CutDirent(fs, d, idx, count);
    CutTree(docs, d, name, idx);
    StandsBy(fs);
    found := true;
  }

  lemma IndexBound(entries: seq<T.Entry>, name: T.Name)
    ensures T.IndexOf(entries, name) <= |entries|
  {
  }

  lemma WholeEntries(c: seq<byte>)
    requires Whole(c)
    ensures |c| % DIRENT_SZ == 0 && |EntriesOf(c)| == |c| / DIRENT_SZ
  {
  }

  /** Losing 32 bytes loses a block iff they were alone in the last one. */
  lemma SameBlockCount(size: nat)
    requires size >= 32 && size % 32 == 0
    ensures TotalBlocks(size - 32) == TotalBlocks(size) <==> size % 512 != 32
  {
    hide Total, Pos, DataBlocks;
    DataBlocksStep(size);
    var n := DataBlocks(size);
    if size % 512 == 32 { TotalStep(n); }
  }

  lemma DataBlocksStep(size: nat)
    requires size >= 32 && size % 32 == 0
    ensures DataBlocks(size) > 0
    ensures DataBlocks(size - 32) == DataBlocks(size) - if size % 512 == 32 then 1 else 0
  {
    var q, r := size / 512, size % 512;
    assert size == 512 * q + r && r % 32 == 0;
    if r == 0 {
      assert DataBlocks(size) == q && DataBlocks(size - 32) == q;
    } else {
      assert DataBlocks(size) == q + 1;
    }
  }

  lemma TotalStep(n: nat)
    requires n > 0
    ensures Total(n - 1) < Total(n)
  {
  }

  // ----- the operations -----

  /** `create_as`, for any name: the volume's operation, or out of space exactly when the volume's is.  It panics iff
      `d` is a file or the name to be stored has more than 28 bytes. */
  method CreateAs(fs: EasyFileSystem, d: u32, name: T.Name, isDir: bool) returns (r: Outcome<Option<u32>>)
    requires Ready(fs) && d in fs.files
    modifies fs, fs.disk, fs.dataBitmap, fs.inodeBitmap
    ensures d in old(Stands(fs)).tree
    ensures if !T.Reserved(name) && !old(fs.files[d].isDir) then r == Panic
            else
              match DoMake(old(Stands(fs)), d, name, isDir)
              case None => r == OutOfMemory
              case Some((v, a)) =>
                if a.Made? && |name| > ARRAY_LEN then r == Panic
                else r == Ok(if a.Made? then Some(a.id) else None) && Stores(fs, v, a.Made?, name)
  {
    hide FsOk, Exact, AreaOk, IsMarked, ViewOf, TreeOf, DataOf, DirOk, T.Find, EntriesOf, EasyFileSystem.Valid,
         EasyFileSystem.NoLeak, EasyFileSystem.View, EasyFileSystem.FreeCount, DirsOk, DirsWhole, T.Reserved, Room,
         Spent, Lowest, Stands, Stem, FoundStays;
    ReadySteady(fs);
    StandsBy(fs);
    ItemAt(fs, d);
    ghost var docs, v := fs.View(), Stands(fs);
    if T.Reserved(name) { return Ok(None); }
    if !fs.files[d].isDir { return Panic; }
    var found := FindInodeId(fs, d, name);
    if found.Some? { return Ok(None); }
    LowestIs(v.tree.Keys, 0);
    InodeLeft(fs);
    var ok, id := fs.CreateInode(isDir, d);
    if !ok { return OutOfMemory; }
    assert id == Lowest(v.tree.Keys, 0);
    Born(fs, docs, v, id, isDir, d);
    ItemAt(fs, d);
    RoomAgain(v, Stands(fs), d);
    var added := AddDirent(fs, d, name, id);
    if !added.Ok? { return added.PropagateFailure(); }
    r := Ok(Some(id));
  }

  /** The file system stands for `v`.  If a name was stored, its directory can be read iff the name ends within the
      array it is kept in. */
  ghost predicate Stores(fs: EasyFileSystem, v: Volume, stored: bool, name: T.Name)
    reads fs, fs.disk, fs.dataBitmap, fs.inodeBitmap
  {
    Steady(fs) && Stands(fs) == v && (Ready(fs) <==> (stored ==> |Stem(name)| < ARRAY_LEN))
  }

  /** The volume after a new inode appeared. */
  lemma Born(fs: EasyFileSystem, docs: Docs, v: Volume, id: u32, isDir: bool, parent: u32)
    requires fs.Valid() && DirsOk(docs) && id !in docs && v.tree == TreeOf(docs) && v.data == DataOf(docs)
    requires fs.View() == docs[id := Doc(isDir, parent, [])] && fs.FreeCount() == v.free && fs.InodeLimit() == v.inodes
    requires fs.NoLeak() == v.tidy
    ensures Ready(fs) && fs.files.Keys == docs.Keys + {id}
    ensures Stands(fs) == v.(tree := v.tree[id := T.Item(isDir, parent, [])], data := if isDir then v.data
            else v.data[id := []])
  {
    hide FsOk, TreeOf, DataOf, DirOk, ViewOf, EasyFileSystem.View, EasyFileSystem.FreeCount, EasyFileSystem.NoLeak,
         Stands;
    StandsBy(fs);
    DirOkEmpty();
    EntriesEmpty();
    DirsUpdate(docs, id, Doc(isDir, parent, []));
    TreeUpdate(docs, id, Doc(isDir, parent, []));
    DataUpdate(docs, id, Doc(isDir, parent, []));
  }

  lemma RoomAgain(v: Volume, v1: Volume, d: u32)
    requires d in v.tree && d in v1.tree && v1.tree[d].entries == v.tree[d].entries && v1.free == v.free
    ensures Room(v1, d) == Room(v, d) && Spent(v1.tree, d) == Spent(v.tree, d)
  {
  }

  /** `alloc_inode` succeeds iff the lowest unused number is below the limit. */
  lemma InodeLeft(fs: EasyFileSystem)
    requires fs.Valid()
    ensures (exists i: u32 :: i !in fs.files && i < fs.inodeMax && i < |fs.inodeBitmap.blocks| * B.BLOCK_BITS) <==>
            Lowest(Stands(fs).tree.Keys, 0) < Stands(fs).inodes
  {
    hide FsOk, TreeOf, ViewOf, DataOf;
    StandsBy(fs);
    var id := Lowest(fs.files.Keys, 0);
    LowestIs(fs.files.Keys, 0);
  }

  lemma DirOkEmpty()
    ensures DirOk([])
  {
  }

  lemma EntriesEmpty()
    ensures EntriesOf([]) == []
  {
  }

  lemma TreeRemove(docs: Docs, i: u32)
    ensures TreeOf(docs - {i}) == TreeOf(docs) - {i}
  {
    hide EntriesOf;
  }

  /** The inode an entry names is live, is not the directory itself and not the root. */
  lemma FoundLive(t: T.Tree, d: u32, name: T.Name)
    requires T.WellFormed(t) && d in t && T.Find(t[d], name).Some?
    ensures T.Find(t[d], name).value in t && T.Find(t[d], name).value != d && T.Find(t[d], name).value != 0
    ensures t[d].isDir
  {
    hide T.NamesOk, T.AllNamed, T.Depth, T.Rooted, T.IndexOf;
    T.FindNames(t, d, name);
    T.NotInItself(t, d, T.IndexOf(t[d].entries, name));
  }

  /** A file, or a directory without entries, loses its bytes: the tree does not notice. */
  lemma ClearedTree(docs: Docs, i: u32)
    requires i in docs && DirsOk(docs) && (docs[i].isDir ==> |docs[i].bytes| / DIRENT_SZ == 0)
    ensures TreeOf(docs[i := docs[i].(bytes := [])]) == TreeOf(docs) && DirsOk(docs[i := docs[i].(bytes := [])])
    ensures DataOf(docs[i := docs[i].(bytes := [])]) == if docs[i].isDir then DataOf(docs) else DataOf(docs)[i := []]
  {
    hide TreeOf, DataOf;
    assert docs[i].isDir ==> EntriesOf(docs[i].bytes) == [];
    EntriesEmpty();
    DirOkEmpty();
    TreeUpdate(docs, i, docs[i].(bytes := []));
    DataUpdate(docs, i, docs[i].(bytes := []));
    TreeAt(docs, i);
    assert TreeOf(docs)[i := TreeOf(docs)[i]] == TreeOf(docs);
  }

  /** Clearing and deallocating one inode, as `unlink` does before it removes the entry. */
  method DropInode(fs: EasyFileSystem, i: u32)
    requires Ready(fs) && i in fs.files && (fs.files[i].isDir ==> fs.files[i].size / DIRENT_SZ == 0)
    modifies fs, fs.disk, fs.dataBitmap, fs.inodeBitmap
    ensures Ready(fs) && fs.files.Keys == old(fs.files.Keys) - {i}
    ensures var v := old(Stands(fs));
            Stands(fs) == v.(tree := v.tree - {i}, data := v.data - {i}, free := v.free + Held(v, i))
  {
    hide FsOk, Exact, ViewOf, TreeOf, DataOf, DirOk, EntriesOf, EasyFileSystem.Valid, EasyFileSystem.NoLeak,
         EasyFileSystem.View, EasyFileSystem.FreeCount, DirsOk, TotalBlocks, Stands;
    StandsBy(fs);
    DocAt(fs, i);
    ItemAt(fs, i);
    ghost var docs, v := fs.View(), Stands(fs);
    EmptySize(docs[i], fs.files[i].size);
    ClearedTree(docs, i);
    fs.Clear(i);
    StandsBy(fs);
    TreeRemove(fs.View(), i);
    DataRemove(fs.View(), i);
    DirsRemove(fs.View(), i);
    assert v.data[i := []] - {i} == v.data - {i};
    fs.RemoveInode(i);
    StandsBy(fs);
    SmallDirectory(docs, i);
  }

  /** A directory shorter than an entry holds no block. */
  lemma SmallDirectory(docs: Docs, i: u32)
    requires i in docs && DirsOk(docs)
    ensures docs[i].isDir && |docs[i].bytes| / DIRENT_SZ == 0 ==> TotalBlocks(|docs[i].bytes|) == 0
  {
    hide Terminated;
    TotalZero();
  }

  lemma EmptySize(doc: Doc, size: nat)
    requires |doc.bytes| == size
    ensures size / DIRENT_SZ == |doc.bytes| / DIRENT_SZ
  {
  }

  /** `unlink`: the volume's operation; every `dealloc` assertion on the way holds. */
  method Unlink(fs: EasyFileSystem, d: u32, name: T.Name) returns (r: Option<u32>)
    requires Ready(fs) && d in fs.files && T.WellFormed(Stands(fs).tree)
    modifies fs, fs.disk, fs.dataBitmap, fs.inodeBitmap
    ensures Ready(fs) && d in old(Stands(fs)).tree
    ensures var (v, a) := DoRemove(old(Stands(fs)), d, name);
            Stands(fs) == v && r == if a.Gone? then Some(a.id) else None
  {
    hide FsOk, Exact, ViewOf, TreeOf, DataOf, DirOk, T.Find, EntriesOf, EasyFileSystem.Valid, EasyFileSystem.NoLeak,
         EasyFileSystem.View, EasyFileSystem.FreeCount, T.WellFormed, DirsOk, DirsWhole, T.RemoveEntry, T.Reserved,
         Stands, Held, Scannable;
    ReadySteady(fs);
    StandsBy(fs);
    ItemAt(fs, d);
    ghost var v := Stands(fs);
    if T.Reserved(name) { return None; }
    var found := FindInodeId(fs, d, name);
    if found.None? { return None; }
    var target := found.value;
    FoundLive(v.tree, d, name);
    ItemAt(fs, target);
    EntriesOfSize(v.tree, target, fs.files[target].size);
    if fs.files[target].isDir && fs.files[target].size / DIRENT_SZ != 0 { return None; }
    DropInode(fs, target);
    StandsBy(fs);
    ItemAt(fs, d);
    UnlinkOrder(v.tree, d, name, target);
    ReadyScan(fs, d, name);
    var removed := RemoveDirent(fs, d, name);
    r := Some(target);
  }

  lemma ReadyScan(fs: EasyFileSystem, d: u32, name: T.Name)
    requires Ready(fs) && d in fs.files && fs.files[d].isDir
    ensures Steady(fs) && d in fs.View() && Scannable(fs.View()[d].bytes, name)
  {
    hide FsOk, ViewOf, Scannable, DirOk, EasyFileSystem.Valid, EasyFileSystem.View;
    ReadySteady(fs);
    DocAt(fs, d);
    DirScannable(fs.View()[d].bytes, name);
  }

  lemma EntriesOfSize(t: T.Tree, i: u32, size: nat)
    requires i in t
    ensures DirSize(t, i) == size ==> (t[i].entries != [] <==> size / DIRENT_SZ != 0)
  {
  }

  lemma DirsRemove(docs: Docs, i: u32)
    requires DirsOk(docs)
    ensures DirsOk(docs - {i})
  {
  }

  /** The inode goes first, then its entry: the order does not show. */
  lemma UnlinkOrder(t: T.Tree, d: u32, name: T.Name, target: u32)
    requires d in t && target != d
    ensures d in t - {target} && T.RemoveEntry(t - {target}, d, name) == T.RemoveEntry(t, d, name) - {target}
    ensures T.Find((t - {target})[d], name) == T.Find(t[d], name) && DirSize(t - {target}, d) == DirSize(t, d)
  {
  }

  /** The answer and the new state are those of `DoRename`; storing a name of more than 28 bytes panics.  `inDir` is
      false if the entry went into a file. */
  ghost predicate Does(spec: Option<(Volume, Answer)>, r: Outcome<bool>, fs: EasyFileSystem, name: T.Name, inDir: bool)
    reads fs, fs.disk, fs.dataBitmap, fs.inodeBitmap
  {
    match spec
    case None => r == OutOfMemory
    case Some((v, a)) =>
      if a == Moved && |name| > ARRAY_LEN then r == Panic
      else r == Ok(a == Moved) && Stores(fs, v, a == Moved && inDir, name)
  }

  /** `rename`: the volume's operation within one directory, for any names. */
  method Rename(fs: EasyFileSystem, d: u32, oldName: T.Name, newName: T.Name) returns (r: Outcome<bool>)
    requires Ready(fs) && d in fs.files
    modifies fs, fs.disk, fs.dataBitmap
    ensures d in old(Stands(fs)).tree
    ensures Does(DoRename(old(Stands(fs)), d, oldName, d, newName), r, fs, newName, true)
  {
    hide FsOk, Exact, ViewOf, TreeOf, DataOf, DirOk, EntriesOf, EasyFileSystem.Valid, EasyFileSystem.NoLeak,
         EasyFileSystem.View, EasyFileSystem.FreeCount, DirsOk, DirsWhole, T.RemoveEntry, T.Reserved, T.AddEntry,
         T.Find, Stands, Room, Spent, Stem, Scannable, DirSize;
    ReadySteady(fs);
    StandsBy(fs);
    ItemAt(fs, d);
    ghost var v := Stands(fs);
    if T.Reserved(oldName) || T.Reserved(newName) { return Ok(false); }
    var found := FindInodeId(fs, d, oldName);
    if found.None? { return Ok(false); }
    FindDir(v.tree[d], oldName);
    var taken := FindInodeId(fs, d, newName);
    if taken.Some? { return Ok(false); }
    var added := AddDirent(fs, d, newName, found.value);
    if !added.Ok? { return added.PropagateFailure(); }
    StandsBy(fs);
    AddedItem(v.tree, d, Stem(newName), found.value);
    ItemAt(fs, d);
    var removed := RemoveDirent(fs, d, oldName);
    r := Ok(true);
  }

  lemma FindDir(item: T.Item, name: T.Name)
    requires T.Find(item, name).Some?
    ensures item.isDir
  {
  }

  /** What is found before an entry is added is found after, and the directory is 32 bytes longer. */
  lemma AddedItem(t: T.Tree, d: u32, name: T.Name, id: u32)
    requires d in t
    ensures var t1 := T.AddEntry(t, d, name, id);
            && t1.Keys == t.Keys && t1[d].isDir == t[d].isDir && DirSize(t1, d) == DirSize(t, d) + 32
            && (forall x :: T.Find(t[d], x).Some? ==> T.Find(t1[d], x) == T.Find(t[d], x))
            && forall c :: c in t && c != d ==> t1[c] == t[c]
  {
    hide T.IndexOf;
    var e := T.Entry(name, id);
    var t1 := T.AddEntry(t, d, name, id);
    forall x | T.Find(t[d], x).Some? ensures T.Find(t1[d], x) == T.Find(t[d], x) { T.IndexOfKept(t[d].entries, x, e); }
  }

  /** The ancestor loop of `rename_at`: it ends, and finds `source` iff `source` is at or above `d`. */
  method FindsAbove(fs: EasyFileSystem, source: u32, d: u32, ghost n: nat) returns (inside: bool)
    requires fs.Valid() && T.RootOk(Stands(fs).tree) && T.Depth(Stands(fs).tree, d, n)
    ensures inside == T.Above(Stands(fs).tree, source, d, n)
  {
    hide FsOk, ViewOf, TreeOf, EntriesOf, T.Depth, T.Above, EasyFileSystem.Valid, EasyFileSystem.View, Stands;
    StandsBy(fs);
    ghost var t := Stands(fs).tree;
    var ancestor := d;
    ghost var m := n;
    while true
      invariant T.Depth(t, ancestor, m) && T.Above(t, source, d, n) == T.Above(t, source, ancestor, m)
      decreases m
    {
      UpOne(t, source, ancestor, m);
      ItemAt(fs, ancestor);
      if ancestor == source { return true; }
      if fs.files[ancestor].parent == 0 && ancestor == 0 { return false; }
      ancestor := fs.files[ancestor].parent;
      m := m - 1;
    }
  }

  lemma UpOne(t: T.Tree, source: u32, d: u32, n: nat)
    requires T.Depth(t, d, n)
    ensures d in t && (d == 0 <==> n == 0) && (n > 0 ==> T.Depth(t, t[d].parent, n - 1))
    ensures d == source ==> T.Above(t, source, d, n)
    ensures d != source ==> T.Above(t, source, d, n) == (n > 0 && T.Above(t, source, t[d].parent, n - 1))
  {
  }

  /** `rename_at` once both parents are resolved, for any names and new parents, save a directory to be put under a
      file: the volume's operation, refused or out of space exactly when that is. */
  method RenameAt(fs: EasyFileSystem, oldDir: u32, oldName: T.Name, newDir: u32, newName: T.Name)
    returns (r: Outcome<bool>)
    requires Ready(fs) && T.WellFormed(Stands(fs).tree) && oldDir in fs.files && newDir in fs.files
    requires oldDir in Stands(fs).tree
    requires fs.files[newDir].isDir || !NamesDirectory(Stands(fs).tree, oldDir, oldName)
    modifies fs, fs.disk, fs.dataBitmap
    ensures old(Stands(fs)).tree.Keys == old(fs.files.Keys)
    ensures Does(DoRename(old(Stands(fs)), oldDir, oldName, newDir, newName), r, fs, newName,
                 old(fs.files[newDir].isDir))
  {
    hide FsOk, ViewOf, TreeOf, DataOf, DirOk, EasyFileSystem.Valid, DirsOk, T.WellFormed, Stands, DoRename, Does,
         T.Depth, NamesDirectory;
    StandsBy(fs);
    ItemAt(fs, newDir);
    if oldDir == newDir {
      ghost var v := Stands(fs);
      r := Rename(fs, oldDir, oldName, newName);
      NotInFile(v, oldDir, oldName, newName, r, fs);
    } else if fs.files[newDir].isDir {
      ghost var n := DepthOf(Stands(fs).tree, newDir);
      r := MoveAcross(fs, oldDir, oldName, newDir, newName, n);
    } else {
      r := MoveUnderFile(fs, oldDir, oldName, newDir, newName);
    }
  }

  predicate NamesDirectory(t: T.Tree, d: u32, name: T.Name)
    requires d in t
  {
    var source := T.Find(t[d], name);
    source.Some? && source.value in t && t[source.value].isDir
  }

  /** A rename in what is no directory finds nothing. */
  lemma NotInFile(v: Volume, d: u32, oldName: T.Name, newName: T.Name, r: Outcome<bool>, fs: EasyFileSystem)
    requires d in v.tree && Does(DoRename(v, d, oldName, d, newName), r, fs, newName, true)
    ensures Does(DoRename(v, d, oldName, d, newName), r, fs, newName, v.tree[d].isDir)
  {
    hide Ready, Stands, Steady, Room, Spent, Stem;
  }

  /** The part of `rename_at` for a file that is to go under a file. */
  method MoveUnderFile(fs: EasyFileSystem, oldDir: u32, oldName: T.Name, file: u32, newName: T.Name)
    returns (r: Outcome<bool>)
    requires Ready(fs) && T.WellFormed(Stands(fs).tree) && oldDir in fs.files && file in fs.files && oldDir != file
    requires oldDir in Stands(fs).tree && !NamesDirectory(Stands(fs).tree, oldDir, oldName) && !fs.files[file].isDir
    modifies fs, fs.disk, fs.dataBitmap
    ensures file in old(Stands(fs)).tree && file in old(Stands(fs)).data
    ensures Does(DoRename(old(Stands(fs)), oldDir, oldName, file, newName), r, fs, newName, false)
  {
    hide FsOk, Exact, ViewOf, TreeOf, DataOf, DirOk, EntriesOf, EasyFileSystem.Valid, EasyFileSystem.NoLeak,
         EasyFileSystem.View, EasyFileSystem.FreeCount, DirsOk, DirsWhole, T.RemoveEntry, T.Reserved, T.WellFormed,
         T.Find, Stands, FileRoom, Spoiled, Needed, Stem, Scannable, DirSize;
    ReadySteady(fs);
    StandsBy(fs);
    ItemAt(fs, file);
    ghost var v := Stands(fs);
    var found := FindInodeId(fs, oldDir, oldName);
    if found.None? { return Ok(false); }
    FoundLive(v.tree, oldDir, oldName);
    FindDir(v.tree[oldDir], oldName);
    var source := found.value;
    ItemAt(fs, source);
    ItemAt(fs, oldDir);
    assert !fs.files[source].isDir;
    if T.Reserved(newName) { return Ok(false); }
    var taken := FindInodeId(fs, file, newName);
    NothingInFile(v.tree[file], newName);
    var linked := LinkFile(fs, file, newName, source);
    if !linked.Ok? { return linked.PropagateFailure(); }
    StandsBy(fs);
    ItemAt(fs, oldDir);
    ReadyScan(fs, oldDir, oldName);
    var removed := RemoveDirent(fs, oldDir, oldName);
    r := Ok(true);
  }

  lemma NothingInFile(item: T.Item, name: T.Name)
    requires !item.isDir
    ensures T.Find(item, name).None?
  {
  }

  /** `link` into a file. */
  method LinkFile(fs: EasyFileSystem, i: u32, name: T.Name, id: u32) returns (r: Outcome<()>)
    requires Ready(fs) && i in fs.files && !fs.files[i].isDir
    modifies fs, fs.disk, fs.dataBitmap
    ensures i in old(Stands(fs)).data
    ensures match r
            case OutOfMemory => !FileRoom(old(Stands(fs)), old(Stands(fs)).data[i])
            case Panic => FileRoom(old(Stands(fs)), old(Stands(fs)).data[i]) && |name| > ARRAY_LEN
            case Ok(_) =>
              var v := old(Stands(fs));
              var c := v.data[i];
              var needed := Needed(|c|, DIRENT_SZ * (|c| / DIRENT_SZ) + DIRENT_SZ);
              && FileRoom(v, c) && |name| <= ARRAY_LEN && Ready(fs) && needed <= v.free
              && fs.files.Keys == old(fs.files.Keys)
              && Stands(fs) == v.(data := v.data[i := Spoiled(c, name, id)], free := v.free - needed)
  {
    hide FsOk, Exact, ViewOf, TreeOf, DataOf, DirOk, EntriesOf, EasyFileSystem.Valid, EasyFileSystem.NoLeak,
         EasyFileSystem.View, EasyFileSystem.FreeCount, DirsOk, Stands, Needed, Written, Encode;
    StandsBy(fs);
    DocAt(fs, i);
    ItemAt(fs, i);
    ghost var docs := fs.View();
    var size := fs.files[i].size;
    var at := DIRENT_SZ * (size / DIRENT_SZ);
    if |name| > ARRAY_LEN {
      // The file has grown by zeros when `DirEntry::new` fails.
      var grown := fs.Write(i, size, Zeros(at + DIRENT_SZ - size));
      return if grown then Panic else OutOfMemory;
    }
    var buf := Encode(T.Entry(name, id));
    var ok := fs.Write(i, at, buf);
    if !ok { return OutOfMemory; }
    FileChanged(docs, i, Written(docs[i].bytes, at, buf));
    StandsBy(fs);
    r := Ok(());
  }

  lemma DepthOf(t: T.Tree, d: u32) returns (n: nat)
    requires T.WellFormed(t) && d in t && t[d].isDir
    ensures T.Depth(t, d, n)
  {
    n :| T.Depth(t, d, n);
  }

  /** The part of `rename_at` for two different directories. */
  method MoveAcross(fs: EasyFileSystem, oldDir: u32, oldName: T.Name, newDir: u32, newName: T.Name, ghost n: nat)
    returns (r: Outcome<bool>)
    requires Ready(fs) && T.WellFormed(Stands(fs).tree)
    requires oldDir in fs.files && newDir in fs.files && fs.files[newDir].isDir && oldDir != newDir
    requires T.Depth(Stands(fs).tree, newDir, n)
    modifies fs, fs.disk, fs.dataBitmap
    ensures old(Stands(fs)).tree.Keys == old(fs.files.Keys)
    ensures Does(DoRename(old(Stands(fs)), oldDir, oldName, newDir, newName), r, fs, newName, true)
  {
    hide FsOk, Exact, ViewOf, TreeOf, DataOf, DirOk, EntriesOf, EasyFileSystem.Valid, EasyFileSystem.NoLeak,
         EasyFileSystem.View, EasyFileSystem.FreeCount, DirsOk, DirsWhole, T.Reserved, T.WellFormed, T.Depth, T.Find,
         T.Above, T.Moved, Stands, Room, Spent, DepthAt, Stem, DoMoveUnderFile;
    ReadySteady(fs);
    StandsBy(fs);
    ItemAt(fs, newDir);
    ghost var v := Stands(fs);
    DepthAtIs(v.tree, newDir, n);
    var found := FindInodeId(fs, oldDir, oldName);
    if found.None? { return Ok(false); }
    var source := found.value;
    FoundLive(v.tree, oldDir, oldName);
    FoundProper(v.tree, oldDir, oldName);
    ItemAt(fs, source);
    ItemAt(fs, oldDir);
    WellFormedRoot(v.tree);
    if fs.files[source].isDir {
      var inside := FindsAbove(fs, source, newDir, n);
      if inside { return Ok(false); }
    }
    if T.Reserved(newName) { return Ok(false); }
    var taken := FindInodeId(fs, newDir, newName);
    if taken.Some? { return Ok(false); }
    var linked := Relink(fs, oldDir, oldName, newDir, newName, source);
    r := if linked.Ok? then Ok(true) else linked.PropagateFailure();
  }

  lemma WellFormedRoot(t: T.Tree)
    requires T.WellFormed(t)
    ensures T.RootOk(t)
  {
  }

  lemma FoundProper(t: T.Tree, d: u32, name: T.Name)
    requires T.WellFormed(t) && d in t && T.Find(t[d], name).Some?
    ensures !T.Reserved(name)
  {
    hide T.Depth, T.LinksOk, T.AllNamed, T.Rooted, T.Reserved;
  }

  /** Link, set the parent of a directory, detach. */
  method Relink(fs: EasyFileSystem, oldDir: u32, oldName: T.Name, newDir: u32, newName: T.Name, source: u32)
    returns (r: Outcome<()>)
    requires Ready(fs) && source in fs.files && oldDir != newDir
    requires oldDir in fs.files && newDir in fs.files && fs.files[oldDir].isDir && fs.files[newDir].isDir
    requires oldDir in Stands(fs).tree && T.Find(Stands(fs).tree[oldDir], oldName) == Some(source)
    modifies fs, fs.disk, fs.dataBitmap
    ensures old(Stands(fs)).tree.Keys == old(fs.files.Keys)
    ensures match r
            case OutOfMemory => !Room(old(Stands(fs)), newDir)
            case Panic => Room(old(Stands(fs)), newDir) && |newName| > ARRAY_LEN
            case Ok(_) =>
              var v := old(Stands(fs));
              && Room(v, newDir) && |newName| <= ARRAY_LEN
              && var t := T.Moved(v.tree, oldDir, oldName, newDir, Stem(newName), source);
                 Stores(fs, v.(tree := t, free := v.free - Spent(v.tree, newDir),
                               tidy := v.tidy && DirSize(v.tree, oldDir) % 512 != 32), true, newName)
  {
    hide FsOk, Exact, ViewOf, TreeOf, DataOf, DirOk, EntriesOf, EasyFileSystem.Valid, EasyFileSystem.NoLeak,
         EasyFileSystem.View, EasyFileSystem.FreeCount, DirsOk, DirsWhole, T.RemoveEntry, T.AddEntry, T.Moved, Stands,
         Room, Spent, T.Find, DirSize, Ready, Stem, Scannable;
    assert fs.Valid() by { ReadyValid(fs); }
    StandsBy(fs);
    ItemAt(fs, oldDir);
    ghost var v := Stands(fs);
    var added := AddDirent(fs, newDir, newName, source);
    if !added.Ok? { return added; }
    LinkedTree(v.tree, oldDir, oldName, newDir, Stem(newName), source);
    StandsBy(fs);
    ItemAt(fs, source);
    if fs.files[source].isDir { Reparent(fs, source, newDir, v.tree); }
    StandsBy(fs);
    ItemAt(fs, oldDir);
    var removed := RemoveDirent(fs, oldDir, oldName);
    r := Ok(());
  }

  /** The tree after the link and the new parent: `oldDir` still holds what it held, and detaching completes the
      move. */
  lemma LinkedTree(t: T.Tree, oldDir: u32, oldName: T.Name, newDir: u32, newName: T.Name, source: u32)
    requires oldDir in t && newDir in t && source in t && oldDir != newDir
    ensures var t1 := T.AddEntry(t, newDir, newName, source);
            && t1.Keys == t.Keys && t1[source].isDir == t[source].isDir
            && var t2 := if t1[source].isDir then t1[source := t1[source].(parent := newDir)] else t1;
            && t2.Keys == t.Keys && t2[oldDir].isDir == t[oldDir].isDir && DirSize(t2, oldDir) == DirSize(t, oldDir)
            && T.Find(t2[oldDir], oldName) == T.Find(t[oldDir], oldName)
            && T.RemoveEntry(t2, oldDir, oldName) == T.Moved(t, oldDir, oldName, newDir, newName, source)
  {
    hide T.IndexOf, T.RemoveEntry;
  }

  /** `set_parent_inode`, seen from the volume. */
  method Reparent(fs: EasyFileSystem, i: u32, parent: u32, ghost t: T.Tree)
    requires Steady(fs) && i in fs.files && FoundStays(t, fs)
    modifies fs`files
    ensures Steady(fs) && (Ready(fs) <==> old(Ready(fs))) && FoundStays(t, fs) && i in old(Stands(fs)).tree
    ensures var v := old(Stands(fs));
            Stands(fs) == v.(tree := v.tree[i := v.tree[i].(parent := parent)])
  {
    hide FsOk, Exact, ViewOf, TreeOf, DataOf, DirOk, EntriesOf, EasyFileSystem.Valid, EasyFileSystem.NoLeak,
         EasyFileSystem.View, EasyFileSystem.FreeCount, DirsOk, DirsWhole, Stands, Scannable;
    StandsBy(fs);
    ghost var docs := fs.View();
    fs.SetParent(i, parent);
    StandsBy(fs);
    ParentOnly(docs, i, parent);
  }

  lemma ParentOnly(docs: Docs, i: u32, parent: u32)
    requires DirsWhole(docs) && i in docs
    ensures var after := docs[i := docs[i].(parent := parent)];
            && DirsWhole(after) && (DirsOk(after) <==> DirsOk(docs)) && DataOf(after) == DataOf(docs)
            && i in TreeOf(docs) && TreeOf(after) == TreeOf(docs)[i := TreeOf(docs)[i].(parent := parent)]
  {
    hide DirOk, EntriesOf, Whole;
    var after := docs[i := docs[i].(parent := parent)];
    if DirsOk(after) {
      forall j | j in docs && docs[j].isDir ensures DirOk(docs[j].bytes) { assert DirOk(after[j].bytes); }
    }
  }

  // ----- whole runs -----

  /** What holds between operations: blocks have one owner and are marked, free blocks are zero, directories hold
      entries, and the entries form a tree. */
  ghost predicate Sound(fs: EasyFileSystem)
    reads fs, fs.disk, fs.dataBitmap, fs.inodeBitmap
  {
    Ready(fs) && T.WellFormed(Stands(fs).tree)
  }

  /** The test the system calls make before an operation. */
  method MayIssue(fs: EasyFileSystem, op: Op) returns (yes: bool)
    requires fs.Valid()
    ensures yes == Issued(Stands(fs), op)
  {
    hide FsOk, ViewOf, TreeOf, DataOf, EasyFileSystem.Valid, EasyFileSystem.View, NameFits, Stands;
    StandsBy(fs);
    match op {
      case Make(d, name, _) =>
        if d in fs.files { ItemAt(fs, d); }
        yes := d in fs.files && fs.files[d].isDir && NameFits(name);
      case Remove(d, _) => yes := d in fs.files;
      case Rename(d, _, e, name) =>
        if e in fs.files { ItemAt(fs, e); }
        yes := d in fs.files && e in fs.files && fs.files[e].isDir && NameFits(name);
      case Put(i, offset, buf) =>
        if i in fs.files { ItemAt(fs, i); } else { NoData(fs, i); }
        yes := i in fs.files && !fs.files[i].isDir && |buf| > 0;
      case Truncate(i) =>
        if i in fs.files { ItemAt(fs, i); } else { NoData(fs, i); }
        yes := i in fs.files && !fs.files[i].isDir;
    }
  }

  lemma NoData(fs: EasyFileSystem, i: u32)
    requires fs.Valid() && i !in fs.files
    ensures i !in Stands(fs).data
  {
    hide FsOk;
    ViewKeys(fs);
  }

  /** The bytes of a regular file are no part of the tree. */
  lemma FileChanged(docs: Docs, i: u32, bytes: seq<byte>)
    requires i in docs && !docs[i].isDir && DirsOk(docs)
    ensures var after := docs[i := docs[i].(bytes := bytes)];
            TreeOf(after) == TreeOf(docs) && DirsOk(after) && DataOf(after) == DataOf(docs)[i := bytes]
  {
    hide TreeOf, DataOf, EntriesOf, DirOk;
    TreeUpdate(docs, i, docs[i].(bytes := bytes));
    DataUpdate(docs, i, docs[i].(bytes := bytes));
    TreeAt(docs, i);
    assert TreeOf(docs)[i := TreeOf(docs)[i]] == TreeOf(docs);
  }

  /** `write_at` of a regular file. */
  method PutBytes(fs: EasyFileSystem, i: u32, offset: nat, buf: seq<byte>) returns (ok: bool)
    requires Ready(fs) && i in fs.files && !fs.files[i].isDir && |buf| > 0
    modifies fs, fs.disk, fs.dataBitmap
    ensures i in old(Stands(fs)).data
    ensures match DoPut(old(Stands(fs)), i, offset, buf)
            case None => !ok
            case Some((v, _)) => ok && Ready(fs) && Stands(fs) == v
  {
    hide FsOk, Exact, ViewOf, TreeOf, DataOf, DirOk, EntriesOf, EasyFileSystem.Valid, EasyFileSystem.NoLeak,
         EasyFileSystem.View, EasyFileSystem.FreeCount, DirsOk, Stands, Needed, Written;
    StandsBy(fs);
    DocAt(fs, i);
    ItemAt(fs, i);
    ghost var docs := fs.View();
    ok := fs.Write(i, offset, buf);
    if ok {
      FileChanged(docs, i, Written(docs[i].bytes, offset, buf));
      StandsBy(fs);
    }
  }

  /** `clear` of a regular file. */
  method ClearBytes(fs: EasyFileSystem, i: u32)
    requires Ready(fs) && i in fs.files && !fs.files[i].isDir
    modifies fs, fs.disk, fs.dataBitmap
    ensures Ready(fs) && i in old(Stands(fs)).data
    ensures var v := old(Stands(fs));
            Stands(fs) == v.(data := v.data[i := []], free := v.free + Held(v, i))
  {
    hide FsOk, Exact, ViewOf, TreeOf, DataOf, DirOk, EntriesOf, EasyFileSystem.Valid, EasyFileSystem.NoLeak,
         EasyFileSystem.View, EasyFileSystem.FreeCount, DirsOk, Stands, TotalBlocks;
    StandsBy(fs);
    DocAt(fs, i);
    ItemAt(fs, i);
    ghost var docs := fs.View();
    fs.Clear(i);
    FileChanged(docs, i, []);
    StandsBy(fs);
  }

  /** Out of memory where `spec` has no room, else `spec`'s volume and answer. */
  ghost predicate Answers(spec: Option<(Volume, Answer)>, r: Outcome<Answer>, fs: EasyFileSystem)
    reads fs, fs.disk, fs.dataBitmap, fs.inodeBitmap
  {
    match spec
    case None => r == OutOfMemory
    case Some((v, a)) => r == Ok(a) && Ready(fs) && Stands(fs) == v
  }

  method StepMake(fs: EasyFileSystem, op: Op) returns (r: Outcome<Answer>)
    requires op.Make? && Ready(fs) && Issued(Stands(fs), op)
    modifies fs, fs.disk, fs.dataBitmap, fs.inodeBitmap
    ensures Answers(V.Step(old(Stands(fs)), op), r, fs)
  {
    hide Stands, DoMake, NameFits, EasyFileSystem.Valid, DirsOk, Stem;
    ghost var v := Stands(fs);
    StemFits(op.name);
    OperandAt(fs, op.d);
    var made := CreateAs(fs, op.d, op.name, op.isDir);
    MadeAnswer(v, op.d, op.name, op.isDir);
    r := if made.Ok? then Ok(if made.value.Some? then Made(made.value.value) else Refused) else OutOfMemory;
  }

  method StepRename(fs: EasyFileSystem, op: Op) returns (r: Outcome<Answer>)
    requires op.Rename? && Ready(fs) && Issued(Stands(fs), op) && T.WellFormed(Stands(fs).tree)
    modifies fs, fs.disk, fs.dataBitmap
    ensures Answers(V.Step(old(Stands(fs)), op), r, fs)
  {
    hide Stands, DoRename, NameFits, T.WellFormed, Does, EasyFileSystem.Valid, DirsOk, Stem;
    ghost var v := Stands(fs);
    StemFits(op.newName);
    OperandAt(fs, op.oldDir);
    OperandAt(fs, op.newDir);
    var moved := RenameAt(fs, op.oldDir, op.oldName, op.newDir, op.newName);
    MovedAnswer(v, op.oldDir, op.oldName, op.newDir, op.newName, moved, fs);
    r := if moved.Ok? then Ok(if moved.value then Moved else Refused) else OutOfMemory;
  }

  method StepRemove(fs: EasyFileSystem, op: Op) returns (r: Outcome<Answer>)
    requires op.Remove? && Ready(fs) && Issued(Stands(fs), op) && T.WellFormed(Stands(fs).tree)
    modifies fs, fs.disk, fs.dataBitmap, fs.inodeBitmap
    ensures Answers(V.Step(old(Stands(fs)), op), r, fs)
  {
    hide Stands, DoRemove, T.WellFormed, EasyFileSystem.Valid, DirsOk;
    ghost var v := Stands(fs);
    OperandAt(fs, op.d);
    var gone := Unlink(fs, op.d, op.name);
    GoneAnswer(v, op.d, op.name);
    r := Ok(if gone.Some? then Gone(gone.value) else Refused);
  }

  method StepPut(fs: EasyFileSystem, op: Op) returns (r: Outcome<Answer>)
    requires op.Put? && Ready(fs) && Issued(Stands(fs), op)
    modifies fs, fs.disk, fs.dataBitmap
    ensures Answers(V.Step(old(Stands(fs)), op), r, fs)
  {
    hide Stands, DoPut, EasyFileSystem.Valid, DirsOk;
    ghost var v := Stands(fs);
    DataLive(fs, op.i);
    var ok := PutBytes(fs, op.i, op.offset, op.buf);
    PutAnswer(v, op.i, op.offset, op.buf);
    r := if ok then Ok(Wrote) else OutOfMemory;
  }

  method StepTruncate(fs: EasyFileSystem, op: Op) returns (r: Outcome<Answer>)
    requires op.Truncate? && Ready(fs) && Issued(Stands(fs), op)
    modifies fs, fs.disk, fs.dataBitmap
    ensures Answers(V.Step(old(Stands(fs)), op), r, fs)
  {
    hide Stands, EasyFileSystem.Valid, DirsOk, Held;
    DataLive(fs, op.i);
    ClearBytes(fs, op.i);
    r := Ok(Cleared);
  }

  /** One operation on the blocks does what the volume's step says: new tree, new bytes, space, leaks and answer.  `r`
      is out of memory exactly when the volume's space does not suffice. */
  method Step(fs: EasyFileSystem, op: Op) returns (r: Outcome<Answer>)
    requires Sound(fs)
    modifies fs, fs.disk, fs.dataBitmap, fs.inodeBitmap
    ensures Answers(V.Step(old(Stands(fs)), op), r, fs) && (r.Ok? ==> Sound(fs))
  {
    hide EasyFileSystem.Valid, T.WellFormed, Stands, V.Step, Ready, Issued;
    assert fs.Valid() by { ReadyValid(fs); }
    StandsBy(fs);
    StepKeeps(Stands(fs), op);
    var issued := MayIssue(fs, op);
    if !issued {
      NotIssued(Stands(fs), op);
      return Ok(Skipped);
    }
    match op {
      case Make(_, _, _) => r := StepMake(fs, op);
      case Remove(_, _) => r := StepRemove(fs, op);
      case Rename(_, _, _, _) => r := StepRename(fs, op);
      case Put(_, _, _) => r := StepPut(fs, op);
      case Truncate(_) => r := StepTruncate(fs, op);
    }
  }

  lemma NotIssued(v: Volume, op: Op)
    requires !Issued(v, op)
    ensures V.Step(v, op) == Some((v, Skipped))
  {
  }

  lemma OperandAt(fs: EasyFileSystem, i: u32)
    requires Ready(fs) && i in Stands(fs).tree
    ensures fs.Valid() && i in fs.files && fs.files[i].isDir == Stands(fs).tree[i].isDir
    ensures Stands(fs).tree.Keys == fs.files.Keys
  {
    hide EasyFileSystem.Valid, Stands, DirsOk;
    StandsBy(fs);
    ItemAt(fs, i);
  }

  lemma ReadyValid(fs: EasyFileSystem)
    requires Ready(fs)
    ensures fs.Valid()
  {
  }

  lemma DataLive(fs: EasyFileSystem, i: u32)
    requires fs.Valid() && i in Stands(fs).data
    ensures i in fs.files && !fs.files[i].isDir
  {
    hide FsOk, ViewOf;
    ViewKeys(fs);
    if i in fs.files { ItemAt(fs, i); }
  }

  lemma MadeAnswer(v: Volume, d: u32, name: T.Name, isDir: bool)
    requires d in v.tree
    ensures DoMake(v, d, name, isDir).Some? ==>
              DoMake(v, d, name, isDir).value.1.Made? || DoMake(v, d, name, isDir).value.1 == Refused
  {
    hide Room, Spent, Lowest, T.Create;
  }

  lemma GoneAnswer(v: Volume, d: u32, name: T.Name)
    requires d in v.tree
    ensures DoRemove(v, d, name).1.Gone? || DoRemove(v, d, name).1 == Refused
  {
  }

  lemma MovedAnswer(v: Volume, d: u32, oldName: T.Name, e: u32, newName: T.Name, r: Outcome<bool>, fs: EasyFileSystem)
    requires d in v.tree && e in v.tree && Does(DoRename(v, d, oldName, e, newName), r, fs, newName, true)
    requires |newName| <= ARRAY_LEN && |Stem(newName)| < ARRAY_LEN
    ensures match DoRename(v, d, oldName, e, newName)
            case None => r == OutOfMemory
            case Some((v1, a)) => Ready(fs) && Stands(fs) == v1 && r.Ok? && a == if r.value then Moved else Refused
  {
    hide Relinked, Room, Spent, Ready, Stands, Stem, DoMoveUnderFile;
    MovedOrRefused(v, d, oldName, e, newName);
  }

  lemma MovedOrRefused(v: Volume, d: u32, oldName: T.Name, e: u32, newName: T.Name)
    requires d in v.tree && e in v.tree
    ensures match DoRename(v, d, oldName, e, newName)
            case None => true
            case Some((_, a)) => a == Moved || a == Refused
  {
    hide Relinked, Room, Spent, FileRoom, Spoiled, T.RemoveEntry;
  }

  lemma PutAnswer(v: Volume, i: u32, offset: nat, buf: seq<byte>)
    requires i in v.data
    ensures DoPut(v, i, offset, buf).Some? ==> DoPut(v, i, offset, buf).value.1 == Wrote
  {
    hide Needed, Written;
  }

  /** Every run on a sound file system does what the same run does to the volume, operation by operation, and stops
      early exactly at the first one for which the volume's space does not suffice. */
  method Run(fs: EasyFileSystem, ops: seq<Op>) returns (n: nat, answers: seq<Answer>)
    requires Sound(fs)
    modifies fs, fs.disk, fs.dataBitmap, fs.inodeBitmap
    ensures Ran(old(Stands(fs)), ops, n, answers)
    ensures n == |ops| ==> Sound(fs) && V.Run(old(Stands(fs)), ops) == Some((Stands(fs), answers))
  {
    hide T.WellFormed, Stands, V.Step, V.Run, EasyFileSystem.Valid, DirsOk;
    n, answers := 0, [];
    ghost var start := Stands(fs);
    RunNone(start, ops);
    while n < |ops|
      invariant n <= |ops| && Sound(fs) && V.Run(start, ops[..n]) == Some((Stands(fs), answers))
    {
      RunNext(start, ops, n);
      var r := Step(fs, ops[n]);
      if !r.Ok? { return; }
      answers := answers + [r.value];
      n := n + 1;
    }
    assert ops[..n] == ops;
  }

  /** The first `n` operations were done, with these answers, and the next one, if any, finds no space. */
  ghost predicate Ran(v: Volume, ops: seq<Op>, n: nat, answers: seq<Answer>) {
    && n <= |ops|
    && match V.Run(v, ops[..n])
       case None => false
       case Some((v1, a)) => a == answers && (n < |ops| ==> V.Step(v1, ops[n]).None?)
  }

  lemma RunNone(v: Volume, ops: seq<Op>)
    ensures V.Run(v, ops[..0]) == Some((v, []))
  {
  }

  /** A file system just created is sound, has an empty root and all its space, and leaks nothing. */
  method Format(disk: Disk, total: u32, inodeBitmapBlocks: nat) returns (fs: EasyFileSystem)
    requires total >= 1 + inodeBitmapBlocks + L.InodeArea(inodeBitmapBlocks) && inodeBitmapBlocks > 0
    requires forall b: u32 :: b < total <==> b in disk.blocks
    modifies disk
    ensures Sound(fs)
    ensures Stands(fs) == Volume(T.Empty(), map[], L.Plan(total, inodeBitmapBlocks).dataArea,
                                 Min(3 * L.InodeArea(inodeBitmapBlocks), 0x1_0000_0000), true)
  {
    hide FsOk, EasyFileSystem.NoLeak, T.WellFormed, Free;
    fs := new EasyFileSystem(disk, total, inodeBitmapBlocks);
    NewDocs();
    T.EmptyWellFormed();
    StandsBy(fs);
  }

  lemma NewDocs()
    ensures var docs: Docs := map[0 := Doc(true, 0, [])];
            DirsOk(docs) && TreeOf(docs) == T.Empty() && DataOf(docs) == map[]
  {
    DirOkEmpty();
    EntriesEmpty();
  }
}
