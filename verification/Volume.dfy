/**
 What a user of the file system sees, without blocks or encodings: the
 directory tree, the bytes of regular files, the space left and whether a
 block has leaked.  Every operation is a function on that value, and it says
 when the space does not suffice.
 */
module Volume {
  import opened Wrappers
  import opened Sequences
  import opened BlockDevice
  import opened IndexTree
  import opened FileBytes
  import opened DirBytes
  import T = DirTree

  /** `free`: free blocks of the data area; `inodes`: usable inode numbers; `tidy`: every marked block has an owner. */
  datatype Volume = Volume(tree: T.Tree, data: map<u32, seq<byte>>, free: nat, inodes: nat, tidy: bool)

  datatype Op =
    | Make(d: u32, name: T.Name, isDir: bool)
    | Remove(d: u32, name: T.Name)
    | Rename(oldDir: u32, oldName: T.Name, newDir: u32, newName: T.Name)
    | Put(i: u32, offset: nat, buf: seq<byte>)
    | Truncate(i: u32)

  datatype Answer = Skipped | Refused | Made(id: u32) | Gone(id: u32) | Moved | Wrote | Cleared

  /** Operands are live inodes of the right kind, new names fit, and a slice to write is not empty; a run skips any
      other operation. */
  predicate Issued(v: Volume, op: Op) {
    match op
    case Make(d, name, _) => d in v.tree && v.tree[d].isDir && NameFits(name)
    case Remove(d, name) => d in v.tree
    case Rename(d, _, e, name) => d in v.tree && e in v.tree && v.tree[e].isDir && NameFits(name)
    case Put(i, offset, buf) => i in v.data && |buf| > 0
    case Truncate(i) => i in v.data
  }

  // ----- space -----

  /** A directory's size in bytes. */
  function DirSize(t: T.Tree, d: u32): nat
    requires d in t
  {
    32 * |t[d].entries|
  }

  /** Blocks that one more entry takes. */
  function Spent(t: T.Tree, d: u32): nat
    requires d in t
  {
    Needed(DirSize(t, d), DirSize(t, d) + 32)
  }

  /** One more entry fits: the directory can be that long and the blocks are there. */
  predicate Room(v: Volume, d: u32)
    requires d in v.tree
  {
    DirSize(v.tree, d) + 32 <= MAX_SIZE && Spent(v.tree, d) <= v.free
  }

  /** The lowest number from `i` on that is not used. */
  function Lowest(keys: set<u32>, i: nat): nat
    decreases keys
  {
    if i < 0x1_0000_0000 && i in keys then Lowest(keys - {i}, i + 1) else i
  }

  lemma {:induction false} LowestIs(keys: set<u32>, i: nat)
    ensures Lowest(keys, i) >= i && (Lowest(keys, i) < 0x1_0000_0000 ==> Lowest(keys, i) !in keys)
    ensures forall j: u32 :: i <= j < Lowest(keys, i) ==> j in keys
    decreases keys
  {
    if i < 0x1_0000_0000 && i in keys { LowestIs(keys - {i}, i + 1); }
  }

  // ----- operations -----

  /** `create_as`, with the inode number `alloc_inode` finds; the entry holds the name up to its first NUL. */
  function DoMake(v: Volume, d: u32, name: T.Name, isDir: bool): Option<(Volume, Answer)>
    requires d in v.tree
  {
    var id := Lowest(v.tree.Keys, 0);
    LowestIs(v.tree.Keys, 0);
    if T.Reserved(name) || T.Find(v.tree[d], name).Some? then Some((v, Refused))
    else if id >= v.inodes || id >= 0x1_0000_0000 || !Room(v, d) then None
    else
      Some((v.(tree := T.AddEntry(v.tree[id := T.Item(isDir, d, [])], d, Stem(name), id),
               data := if isDir then v.data else v.data[id := []],
               free := v.free - Spent(v.tree, d)),
            Made(id)))
  }

  /** Blocks a regular file gives back. */
  function Held(v: Volume, i: u32): nat { if i in v.data then TotalBlocks(|v.data[i]|) else 0 }

  /** `unlink`; the entry's 32 bytes are never given back. */
  function DoRemove(v: Volume, d: u32, name: T.Name): (Volume, Answer)
    requires d in v.tree
  {
    match T.Unlink(v.tree, d, name)
    case None => (v, Refused)
    case Some(t) =>
      var id := T.Find(v.tree[d], name).value;
      (v.(tree := t, data := v.data - {id}, free := v.free + Held(v, id), tidy := v.tidy
          && DirSize(v.tree, d) % 512 != 32),
       Gone(id))
  }

  /** The depth of a directory, which the ancestor loop counts down. */
  ghost function DepthAt(t: T.Tree, d: u32): nat {
    if n: nat :| T.Depth(t, d, n) then n else 0
  }

  /** What `rename_at` does to the tree, once both parents are resolved. */
  ghost function Relinked(t: T.Tree, oldDir: u32, oldName: T.Name, newDir: u32, newName: T.Name): Option<T.Tree>
    requires oldDir in t && newDir in t
  {
    if oldDir == newDir then
      if T.Rename(t, oldDir, oldName, newName).None? then None
      else Some(T.RemoveEntry(T.AddEntry(t, oldDir, Stem(newName), T.Find(t[oldDir], oldName).value), oldDir, oldName))
    else if T.Move(t, oldDir, oldName, newDir, newName, DepthAt(t, newDir)).None? then None
    else Some(T.Moved(t, oldDir, oldName, newDir, Stem(newName), T.Find(t[oldDir], oldName).value))
  }

  /** The bytes of a file after `link` took it for a directory: an entry over its last incomplete 32 bytes, or behind.
      */
  function Spoiled(c: seq<byte>, name: T.Name, id: u32): seq<byte> {
    Written(c, DIRENT_SZ * (|c| / DIRENT_SZ),
            if |name| <= ARRAY_LEN then Encode(T.Entry(name, id)) else Zeros(DIRENT_SZ))
  }

  /** The same, one entry longer than the whole entries that fit. */
  predicate FileRoom(v: Volume, c: seq<byte>) {
    var end := DIRENT_SZ * (|c| / DIRENT_SZ) + DIRENT_SZ;
    end <= MAX_SIZE && Needed(|c|, end) <= v.free
  }

  /** `rename_at` of a file to a place under a file, which `link` does not refuse: the new parent's bytes are spoiled,
      and the moved file has no entry any more. */
  function DoMoveUnderFile(v: Volume, oldDir: u32, oldName: T.Name, file: u32, newName: T.Name)
    : Option<(Volume, Answer)>
    requires oldDir in v.tree && file in v.data
  {
    match T.Find(v.tree[oldDir], oldName)
    case None => Some((v, Refused))
    case Some(source) =>
      var c := v.data[file];
      if T.Reserved(newName) then Some((v, Refused))
      else if !FileRoom(v, c) then None
      else
        Some((v.(tree := T.RemoveEntry(v.tree, oldDir, oldName), data := v.data[file := Spoiled(c, newName, source)],
                 free := v.free - Needed(|c|, DIRENT_SZ * (|c| / DIRENT_SZ) + DIRENT_SZ),
                 tidy := v.tidy && DirSize(v.tree, oldDir) % 512 != 32),
              Moved))
  }

  /** Every such move that is not refused breaks the tree: the moved file can no longer be reached. */
  lemma MoveUnderFileBreaks(v: Volume, oldDir: u32, oldName: T.Name, file: u32, newName: T.Name)
    requires T.WellFormed(v.tree) && oldDir in v.tree && file in v.data
    ensures match DoMoveUnderFile(v, oldDir, oldName, file, newName)
            case Some((v1, Moved)) => !T.WellFormed(v1.tree)
            case _ => true
  {
    hide T.Reserved, FileRoom, Spoiled, T.Rooted, T.NamesOk;
    var source := T.Find(v.tree[oldDir], oldName);
    if source.Some? { T.OrphanedIsBroken(v.tree, oldDir, oldName, source.value); }
  }

  /** `rename_at`: the new entry is added first, so a rename inside a full block takes a block and then drops it. */
  ghost function DoRename(v: Volume, oldDir: u32, oldName: T.Name, newDir: u32, newName: T.Name)
    : Option<(Volume, Answer)>
    requires oldDir in v.tree && newDir in v.tree
  {
    if oldDir != newDir && !v.tree[newDir].isDir && newDir in v.data then
      DoMoveUnderFile(v, oldDir, oldName, newDir, newName)
    else match Relinked(v.tree, oldDir, oldName, newDir, newName)
    case None => Some((v, Refused))
    case Some(t) =>
      if !Room(v, newDir) then None
      else
        var size := DirSize(v.tree, oldDir) + if oldDir == newDir then 32 else 0;
        Some((v.(tree := t, free := v.free - Spent(v.tree, newDir), tidy := v.tidy && size % 512 != 32), Moved))
  }

  /** `write_at`. */
  function DoPut(v: Volume, i: u32, offset: nat, buf: seq<byte>): Option<(Volume, Answer)>
    requires i in v.data
  {
    var needed := Needed(|v.data[i]|, offset + |buf|);
    if offset + |buf| > MAX_SIZE || needed > v.free then None
    else Some((v.(data := v.data[i := Written(v.data[i], offset, buf)], free := v.free - needed), Wrote))
  }

  /** One operation: the new volume and the answer, or none when space runs out. */
  ghost function Step(v: Volume, op: Op): Option<(Volume, Answer)> {
    if !Issued(v, op) then Some((v, Skipped))
    else match op
      case Make(d, name, isDir) => DoMake(v, d, name, isDir)
      case Remove(d, name) => Some(DoRemove(v, d, name))
      case Rename(d, oldName, e, newName) => DoRename(v, d, oldName, e, newName)
      case Put(i, offset, buf) => DoPut(v, i, offset, buf)
      case Truncate(i) => Some((v.(data := v.data[i := []], free := v.free + Held(v, i)), Cleared))
  }

  /** A run: the volume and all answers, or none if space runs out on the way. */
  ghost function Run(v: Volume, ops: seq<Op>): Option<(Volume, seq<Answer>)>
    decreases |ops|
  {
    if ops == [] then Some((v, []))
    else
      var n := |ops| - 1;
      match Run(v, ops[..n])
      case None => None
      case Some((v1, answers)) =>
        match Step(v1, ops[n])
        case None => None
        case Some((v2, a)) => Some((v2, answers + [a]))
  }

  lemma RunNext(v: Volume, ops: seq<Op>, n: nat)
    requires n < |ops|
    ensures Run(v, ops[..n + 1]) ==
            match Run(v, ops[..n])
            case None => None
            case Some((v1, answers)) =>
              match Step(v1, ops[n])
              case None => None
              case Some((v2, a)) => Some((v2, answers + [a]))
  {
    hide Step;
    assert ops[..n + 1][..n] == ops[..n];
  }

  // ----- what every run keeps -----

  lemma DepthAtIs(t: T.Tree, d: u32, n: nat)
    requires T.Depth(t, d, n)
    ensures DepthAt(t, d) == n
  {
    T.DepthUnique(t, d, DepthAt(t, d), n);
  }

  /** The tree stays well-formed. */
  lemma StepKeeps(v: Volume, op: Op)
    requires T.WellFormed(v.tree)
    ensures Step(v, op).Some? ==> T.WellFormed(Step(v, op).value.0.tree)
  {
    hide T.WellFormed, T.Create, T.Unlink, T.Rename, T.Move, T.Depth, Room, Spent, NameFits, Lowest, DepthAt, Stem,
         T.AddEntry;
    if Issued(v, op) && Step(v, op).Some? {
      match op {
        case Make(d, name, isDir) =>
          LowestIs(v.tree.Keys, 0);
          StemFits(name);
          MadeIsCreated(v, d, name, isDir);
          if Step(v, op).value.1 != Refused { T.CreateKeeps(v.tree, d, name, isDir, Lowest(v.tree.Keys, 0)); }
        case Remove(d, name) => T.UnlinkKeeps(v.tree, d, name);
        case Rename(d, oldName, e, newName) => RelinkedKeeps(v.tree, d, oldName, e, newName);
        case _ =>
      }
    }
  }

  /** For a name that fits, the tree is that of `T.Create`. */
  lemma MadeIsCreated(v: Volume, d: u32, name: T.Name, isDir: bool)
    requires d in v.tree && Stem(name) == name
    ensures var id := Lowest(v.tree.Keys, 0);
            match DoMake(v, d, name, isDir)
            case Some((v1, Made(_))) =>
              id < 0x1_0000_0000 && id !in v.tree && T.Create(v.tree, d, name, isDir, id) == Some(v1.tree)
            case _ => true
  {
    hide Stem, Lowest, Room, Spent;
    LowestIs(v.tree.Keys, 0);
  }

  lemma RelinkedKeeps(t: T.Tree, oldDir: u32, oldName: T.Name, newDir: u32, newName: T.Name)
    requires T.WellFormed(t) && oldDir in t && newDir in t && t[newDir].isDir && NameFits(newName)
    ensures Relinked(t, oldDir, oldName, newDir, newName).Some? ==>
              T.WellFormed(Relinked(t, oldDir, oldName, newDir, newName).value)
  {
    hide T.Depth, T.NamesOk, T.LinksOk, T.AllNamed, T.Above, T.Moved, T.AddEntry, T.RemoveEntry, NameFits, Stem;
    StemFits(newName);
    if oldDir == newDir {
      T.RenameKeeps(t, oldDir, oldName, newName);
    } else {
      var n: nat :| T.Depth(t, newDir, n);
      DepthAtIs(t, newDir, n);
      T.MoveKeeps(t, oldDir, oldName, newDir, newName, n);
    }
  }

  /** Over every run the tree stays well-formed, and a leak, once there, stays. */
  lemma {:induction false} RunKeeps(v: Volume, ops: seq<Op>)
    requires T.WellFormed(v.tree)
    ensures Run(v, ops).Some? ==> T.WellFormed(Run(v, ops).value.0.tree) && (Run(v, ops).value.0.tidy ==> v.tidy)
    decreases |ops|
  {
    hide T.WellFormed, Step;
    if ops != [] {
      var n := |ops| - 1;
      RunKeeps(v, ops[..n]);
      if Run(v, ops[..n]).Some? {
        StepKeeps(Run(v, ops[..n]).value.0, ops[n]);
        LeaksStay(Run(v, ops[..n]).value.0, ops[n]);
      }
    }
  }

  lemma LeaksStay(v: Volume, op: Op)
    ensures Step(v, op).Some? && Step(v, op).value.0.tidy ==> v.tidy
    ensures Step(v, op).Some? && (op.Make? || op.Put? || op.Truncate?) ==> Step(v, op).value.0.tidy == v.tidy
  {
    hide T.Create, T.Unlink, Relinked, Room, Spent, NameFits, Lowest, Stem, FileRoom, Spoiled, T.AddEntry;
  }
}
