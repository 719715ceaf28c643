/**
 The directory tree (easy-fs/src/vfs.rs, os/src/fs/inode.rs): directories as
 ordered lists of entries, and the parent number each directory stores.  What
 every operation keeps: one name per inode, held by the directory that the
 inode calls its parent, and parent chains that end at the root.
 */
module DirTree {
  import opened Wrappers
  import opened BlockDevice

  type Name = seq<byte>
  datatype Entry = Entry(name: Name, id: u32)

  /** A live inode: its kind, its `parent_inode`, and its entries when it is a directory. */
  datatype Item = Item(isDir: bool, parent: u32, entries: seq<Entry>)
  type Tree = map<u32, Item>

  const DOT: Name := [46]
  const DOTDOT: Name := [46, 46]

  /** The names every operation refuses. */
  predicate Reserved(name: Name) { name == [] || name == DOT || name == DOTDOT }

  // ----- entries of one directory -----

  /** The position of the first entry called `name`, or the number of entries. */
  function IndexOf(entries: seq<Entry>, name: Name): (i: nat)
    ensures i <= |entries| && (i < |entries| ==> entries[i].name == name)
    ensures forall j :: 0 <= j < i ==> entries[j].name != name
  {
    if entries == [] || entries[0].name == name then 0 else 1 + IndexOf(entries[1..], name)
  }

  /** `find_inode_id`. */
  function Find(item: Item, name: Name): Option<u32> {
    var i := IndexOf(item.entries, name);
    if item.isDir && i < |item.entries| then Some(item.entries[i].id) else None
  }

  /** `remove_directory_entry`. */
  function Without(entries: seq<Entry>, name: Name): seq<Entry> {
    var i := IndexOf(entries, name);
    if i < |entries| then entries[..i] + entries[i + 1..] else entries
  }

  // ----- the operations -----

  function AddEntry(t: Tree, d: u32, name: Name, id: u32): Tree
    requires d in t
  {
    t[d := t[d].(entries := t[d].entries + [Entry(name, id)])]
  }

  function RemoveEntry(t: Tree, d: u32, name: Name): Tree
    requires d in t
  {
    t[d := t[d].(entries := Without(t[d].entries, name))]
  }

  /** `create_as` in directory `d`, where `alloc_inode` returns `id`. */
  function Create(t: Tree, d: u32, name: Name, isDir: bool, id: u32): Option<Tree>
    requires d in t && id !in t
  {
    if Reserved(name) || Find(t[d], name).Some? then None
    else Some(AddEntry(t[id := Item(isDir, d, [])], d, name, id))
  }

  /** `unlink`. */
  function Unlink(t: Tree, d: u32, name: Name): Option<Tree>
    requires d in t
  {
    if Reserved(name) then None
    else match Find(t[d], name)
      case None => None
      case Some(target) =>
        if target in t && t[target].isDir && t[target].entries != [] then None
        else Some(RemoveEntry(t, d, name) - {target})
  }

  /** `rename`, within one directory. */
  function Rename(t: Tree, d: u32, oldName: Name, newName: Name): Option<Tree>
    requires d in t
  {
    if Reserved(oldName) || Reserved(newName) then None
    else match Find(t[d], oldName)
      case None => None
      case Some(id) =>
        if Find(t[d], newName).Some? then None
        else Some(RemoveEntry(AddEntry(t, d, newName, id), d, oldName))
  }

  /** The cycle check of `rename_at`: `source` is found on the way from `d`, at depth `n`, up to the root. */
  predicate Above(t: Tree, source: u32, d: u32, n: nat)
    decreases n
  {
    d == source || (n > 0 && d in t && Above(t, source, t[d].parent, n - 1))
  }

  /** `rename_at` between different directories, `n` being the depth of `newDir`. */
  function Move(t: Tree, oldDir: u32, oldName: Name, newDir: u32, newName: Name, n: nat): Option<Tree>
    requires oldDir in t && newDir in t && oldDir != newDir
  {
    if Reserved(oldName) || Reserved(newName) then None
    else match Find(t[oldDir], oldName)
      case None => None
      case Some(source) =>
        if source in t && t[source].isDir && Above(t, source, newDir, n) then None
        else if Find(t[newDir], newName).Some? then None
        else Some(Moved(t, oldDir, oldName, newDir, newName, source))
  }

  /** Link, set the parent of a directory, detach. */
  function Moved(t: Tree, oldDir: u32, oldName: Name, newDir: u32, newName: Name, source: u32): Tree
    requires oldDir in t && newDir in t
  {
    var t1 := AddEntry(t, newDir, newName, source);
    var t2 := if source in t1 && t1[source].isDir then t1[source := t1[source].(parent := newDir)] else t1;
    RemoveEntry(t2, oldDir, oldName)
  }

  // ----- well-formed trees -----

  /** `id` is named by entry `i` of `d`. */
  predicate Names(t: Tree, d: u32, i: int, id: u32) { d in t && 0 <= i < |t[d].entries| && t[d].entries[i].id == id }

  ghost predicate RootOk(t: Tree) { 0 in t && t[0].isDir && t[0].parent == 0 }

  /** Names are proper and unique in their directory, and only directories have entries. */
  ghost predicate NamesOk(t: Tree) {
    && (forall d :: d in t && !t[d].isDir ==> t[d].entries == [])
    && (forall d, i :: d in t && 0 <= i < |t[d].entries| ==> !Reserved(t[d].entries[i].name))
    && forall d, i, j :: d in t && 0 <= i < j < |t[d].entries| ==> t[d].entries[i].name != t[d].entries[j].name
  }

  /** Entries name live inodes other than the root, a directory is named in its parent, and no inode has two names. */
  ghost predicate LinksOk(t: Tree) {
    && (forall d, i, id :: Names(t, d, i, id) ==> id in t && id != 0 && (t[id].isDir ==> t[id].parent == d))
    && forall d, i, e, j, id :: Names(t, d, i, id) && Names(t, e, j, id) ==> d == e && i == j
  }

  /** Every inode but the root has a name. */
  ghost predicate AllNamed(t: Tree) { forall id :: id in t && id != 0 ==> exists d, i :: Names(t, d, i, id) }

  /** Going up from `d` reaches the root in exactly `n` steps, through directories. */
  predicate Depth(t: Tree, d: u32, n: nat)
    decreases n
  {
    d in t && t[d].isDir && if n == 0 then d == 0 else d != 0 && Depth(t, t[d].parent, n - 1)
  }

  ghost predicate Rooted(t: Tree) { forall d :: d in t && t[d].isDir ==> exists n: nat :: Depth(t, d, n) }

  ghost predicate WellFormed(t: Tree) { RootOk(t) && NamesOk(t) && LinksOk(t) && AllNamed(t) && Rooted(t) }

  // ----- what that means -----

  /** A directory is named by exactly one entry of the whole tree, and its parent holds it. */
  lemma DirectoryNamedOnce(t: Tree, c: u32) returns (i: int)
    requires WellFormed(t) && c in t && t[c].isDir && c != 0
    ensures t[c].parent in t && t[t[c].parent].isDir && Names(t, t[c].parent, i, c)
    ensures forall d, j :: Names(t, d, j, c) ==> d == t[c].parent && j == i
  {
    hide Rooted, Depth;
    var d, k :| Names(t, d, k, c);
    i := k;
  }

  lemma {:induction false} DepthUnique(t: Tree, d: u32, m: nat, n: nat)
    requires Depth(t, d, m) && Depth(t, d, n)
    ensures m == n
    decreases m
  {
    if m > 0 && n > 0 { DepthUnique(t, t[d].parent, m - 1, n - 1); }
  }

  /** `d` lies `k` levels below `s`, following entries downwards. */
  ghost predicate Below(t: Tree, s: u32, d: u32, k: nat)
    decreases k
  {
    if k == 0 then d == s else exists e, i :: Below(t, s, e, k - 1) && Names(t, e, i, d)
  }

  /** Following entries down from `s` one comes to `d`. */
  ghost predicate Under(t: Tree, s: u32, d: u32) { exists k: nat :: Below(t, s, d, k) }

  /** Going up finds `s` exactly when going down from `s` finds `d`. */
  lemma {:induction false} AboveIsBelow(t: Tree, s: u32, d: u32, n: nat)
    requires WellFormed(t) && s in t && Depth(t, d, n)
    ensures Above(t, s, d, n) <==> Under(t, s, d)
    decreases n
  {
    hide NamesOk, AllNamed, Rooted;
    if d == s {
      assert Below(t, s, d, 0);
    } else if n == 0 {
      assert forall k: nat :: !Below(t, s, d, k);
    } else {
      var p := t[d].parent;
      AboveIsBelow(t, s, p, n - 1);
      var i := NamedInParent(t, d);
      assert Above(t, s, d, n) == Above(t, s, p, n - 1);
      if k: nat :| Below(t, s, p, k) {
        assert Below(t, s, p, k + 1 - 1) && Names(t, p, i, d);
        assert Below(t, s, d, k + 1);
      }
      if k: nat :| Below(t, s, d, k) {
        var e, j :| Below(t, s, e, k - 1) && Names(t, e, j, d);
        assert e == p && Below(t, s, p, k - 1);
      }
    }
  }

  lemma NamedInParent(t: Tree, d: u32) returns (i: int)
    requires WellFormed(t) && d in t && t[d].isDir && d != 0
    ensures Names(t, t[d].parent, i, d)
  {
    i := DirectoryNamedOnce(t, d);
  }

  // ----- chains -----

  /** A chain that avoids `x` does not notice changes at `x` or to entries. */
  lemma {:induction false} DepthKept(t: Tree, t1: Tree, d: u32, n: nat, x: u32)
    requires Depth(t, d, n) && !Above(t, x, d, n)
    requires forall c :: c in t && c != x ==> c in t1 && t1[c].isDir == t[c].isDir && t1[c].parent == t[c].parent
    ensures Depth(t1, d, n) && !Above(t1, x, d, n)
    decreases n
  {
    if n > 0 { DepthKept(t, t1, t[d].parent, n - 1, x); }
  }

  /** When `x`'s chain is repaired, every chain through `x` is. */
  lemma {:induction false} DepthThrough(t: Tree, t1: Tree, d: u32, n: nat, x: u32, m: nat) returns (n1: nat)
    requires Depth(t, d, n) && Depth(t1, x, m) && x != 0 && 0 in t1 && t1[0].isDir
    requires forall c :: c in t && c != x ==> c in t1 && t1[c].isDir == t[c].isDir && t1[c].parent == t[c].parent
    ensures Depth(t1, d, n1)
    decreases n
  {
    if d == x {
      n1 := m;
    } else if n == 0 {
      n1 := 0;
    } else {
      var up := DepthThrough(t, t1, t[d].parent, n - 1, x, m);
      n1 := up + 1;
    }
  }

  /** Nothing hangs below a directory without entries. */
  lemma {:induction false} EmptyHasNoDescendants(t: Tree, x: u32, d: u32, n: nat)
    requires WellFormed(t) && x in t && t[x].entries == [] && Depth(t, d, n) && d != x
    ensures !Above(t, x, d, n)
    decreases n
  {
    hide NamesOk, AllNamed, Rooted;
    if n > 0 {
      var i := NamedInParent(t, d);
      assert t[d].parent != x;
      EmptyHasNoDescendants(t, x, t[d].parent, n - 1);
    }
  }

  /** Entries alone do not matter to chains. */
  lemma RootedByParents(t: Tree, t1: Tree)
    requires Rooted(t) && t1.Keys == t.Keys
    requires forall c :: c in t ==> t1[c].isDir == t[c].isDir && t1[c].parent == t[c].parent
    ensures Rooted(t1)
  {
    hide Depth, Above;
    forall d | d in t1 && t1[d].isDir ensures exists n: nat :: Depth(t1, d, n) {
      var n: nat :| Depth(t, d, n);
      DepthSame(t, t1, d, n);
    }
  }

  lemma {:induction false} DepthSame(t: Tree, t1: Tree, d: u32, n: nat)
    requires Depth(t, d, n)
    requires forall c :: c in t ==> c in t1 && t1[c].isDir == t[c].isDir && t1[c].parent == t[c].parent
    ensures Depth(t1, d, n)
    decreases n
  {
    if n > 0 { DepthSame(t, t1, t[d].parent, n - 1); }
  }

  // ----- every operation keeps the tree well-formed -----

  /** The new tree differs from `t` by one entry of `d` gained. */
  ghost predicate Gained(t: Tree, t1: Tree, d: u32, e: Entry) {
    && d in t && t1.Keys == t.Keys && t1[d].entries == t[d].entries + [e]
    && forall c :: c in t && c != d ==> t1[c].entries == t[c].entries
  }

  /** The new tree differs from `t` by entry `i` of `d` lost. */
  ghost predicate Lost(t: Tree, t1: Tree, d: u32, i: nat) {
    && d in t && i < |t[d].entries| && d in t1 && t1[d].entries == t[d].entries[..i] + t[d].entries[i + 1..]
    && forall c :: c in t1 && c != d ==> c in t && t1[c].entries == t[c].entries
  }

  lemma NamesGained(t: Tree, t1: Tree, d: u32, e: Entry, c: u32, i: int, id: u32)
    requires Gained(t, t1, d, e)
    ensures Names(t1, c, i, id) <==> Names(t, c, i, id) || (c == d && i == |t[d].entries| && id == e.id)
  {
  }

  lemma NamesLost(t: Tree, t1: Tree, d: u32, k: nat, c: u32, i: int, id: u32)
    requires Lost(t, t1, d, k)
    ensures Names(t1, c, i, id) <==> c in t1 && Names(t, c, if c == d && i >= k then i + 1 else i, id) && i >= 0
  {
    if c == d && 0 <= i < |t1[d].entries| {
      assert t1[d].entries[i] == t[d].entries[if i >= k then i + 1 else i];
    }
  }

  lemma NamesOkGained(t: Tree, t1: Tree, d: u32, e: Entry)
    requires NamesOk(t) && Gained(t, t1, d, e) && t[d].isDir && !Reserved(e.name) && Find(t[d], e.name).None?
    requires forall c :: c in t ==> t1[c].isDir == t[c].isDir
    ensures NamesOk(t1)
  {
    assert IndexOf(t[d].entries, e.name) == |t[d].entries|;
  }

  lemma NamesOkLost(t: Tree, t1: Tree, d: u32, k: nat)
    requires NamesOk(t) && Lost(t, t1, d, k) && forall c :: c in t1 ==> c in t && t1[c].isDir == t[c].isDir
    ensures NamesOk(t1)
  {
    assert forall i :: 0 <= i < |t1[d].entries| ==> t1[d].entries[i] == t[d].entries[if i >= k then i + 1 else i];
  }

  /** `create_as` keeps the tree well-formed, and fails exactly on a reserved or taken name. */
  lemma CreateKeeps(t: Tree, d: u32, name: Name, isDir: bool, id: u32)
    requires WellFormed(t) && d in t && t[d].isDir && id !in t
    ensures Create(t, d, name, isDir, id).None? <==> Reserved(name) || Find(t[d], name).Some?
    ensures Create(t, d, name, isDir, id).Some? ==> WellFormed(Create(t, d, name, isDir, id).value)
  {
    hide WellFormed, NamesOk, LinksOk, AllNamed, Rooted, Depth, Find;
    if Create(t, d, name, isDir, id).Some? {
      CreateParts(t, d, name, isDir, id);
    }
  }

  lemma CreateParts(t: Tree, d: u32, name: Name, isDir: bool, id: u32)
    requires WellFormed(t) && d in t && t[d].isDir && id !in t && Create(t, d, name, isDir, id).Some?
    ensures WellFormed(Create(t, d, name, isDir, id).value)
  {
    hide NamesOk, LinksOk, AllNamed, Rooted, Depth, Find;
    var t0: Tree := t[id := Item(isDir, d, [])];
    var t1 := Create(t, d, name, isDir, id).value;
    var e := Entry(name, id);
    assert Gained(t0, t1, d, e);
    assert NamesOk(t0) by { NamesOkNew(t, id, isDir, d); }
    NamesOkGained(t0, t1, d, e);
    CreateLinks(t, t0, t1, d, e, isDir);
    CreateRooted(t, t1, d, id, isDir);
  }

  lemma NamesOkNew(t: Tree, id: u32, isDir: bool, d: u32)
    requires NamesOk(t) && id !in t
    ensures NamesOk(t[id := Item(isDir, d, [])])
  {
  }

  lemma NamesNew(t: Tree, x: u32, isDir: bool, d: u32, c: u32, i: int, id: u32)
    requires x !in t
    ensures Names(t[x := Item(isDir, d, [])], c, i, id) == Names(t, c, i, id)
  {
  }

  lemma CreateLinks(t: Tree, t0: Tree, t1: Tree, d: u32, e: Entry, isDir: bool)
    requires LinksOk(t) && AllNamed(t) && e.id !in t && d in t && 0 in t && t0 == t[e.id := Item(isDir, d, [])]
    requires Gained(t0, t1, d, e)
    requires forall c :: c in t0 ==> t1[c].isDir == t0[c].isDir && t1[c].parent == t0[c].parent
    ensures LinksOk(t1) && AllNamed(t1)
  {
    hide Names;
    forall c, i, id ensures Names(t1, c, i, id) <==>
        Names(t, c, i, id) || (c == d && i == |t[d].entries| && id == e.id) {
      NamesGained(t0, t1, d, e, c, i, id);
      NamesNew(t, e.id, isDir, d, c, i, id);
    }
    assert Names(t1, d, |t[d].entries|, e.id);
    forall id | id in t1 && id != 0 ensures exists c, i :: Names(t1, c, i, id) {
      if id != e.id {
        var c, i :| Names(t, c, i, id);
        assert Names(t1, c, i, id);
      }
    }
  }

  lemma CreateRooted(t: Tree, t1: Tree, d: u32, id: u32, isDir: bool)
    requires Rooted(t) && id !in t && d in t && t[d].isDir && 0 in t
    requires t1.Keys == t.Keys + {id} && t1[id].isDir == isDir && t1[id].parent == d
    requires forall c :: c in t ==> t1[c].isDir == t[c].isDir && t1[c].parent == t[c].parent
    ensures Rooted(t1)
  {
    forall c | c in t1 && t1[c].isDir ensures exists n: nat :: Depth(t1, c, n) {
      var from := if c == id then d else c;
      var n: nat :| Depth(t, from, n);
      DepthSame(t, t1, from, n);
      assert c == id ==> Depth(t1, c, n + 1);
    }
  }

  lemma {:induction false} SelfParent(t: Tree, d: u32, n: nat)
    requires d in t && d != 0 && t[d].parent == d
    ensures !Depth(t, d, n)
  {
    if n > 0 { SelfParent(t, d, n - 1); }
  }

  lemma NotInItself(t: Tree, d: u32, i: int)
    requires WellFormed(t) && d in t && t[d].isDir
    ensures !Names(t, d, i, d)
  {
    hide NamesOk, AllNamed, Depth;
    var n: nat :| Depth(t, d, n);
    if d != 0 && t[d].parent == d { SelfParent(t, d, n); }
  }

  lemma FindNames(t: Tree, d: u32, name: Name)
    requires d in t && Find(t[d], name).Some?
    ensures Names(t, d, IndexOf(t[d].entries, name), Find(t[d], name).value)
  {
  }

  /** `unlink` keeps the tree well-formed, and fails exactly on a reserved or missing name or a non-empty directory. */
  lemma UnlinkKeeps(t: Tree, d: u32, name: Name)
    requires WellFormed(t) && d in t
    ensures Unlink(t, d, name).None? <==>
              Reserved(name) || Find(t[d], name).None? ||
              (Find(t[d], name).value in t && t[Find(t[d], name).value].isDir
                  && t[Find(t[d], name).value].entries != [])
    ensures Unlink(t, d, name).Some? ==> WellFormed(Unlink(t, d, name).value)
  {
    hide WellFormed, NamesOk, LinksOk, AllNamed, Rooted, Depth, Find;
    if Unlink(t, d, name).Some? {
      UnlinkParts(t, d, name);
    }
  }

  lemma UnlinkParts(t: Tree, d: u32, name: Name)
    requires WellFormed(t) && d in t && Unlink(t, d, name).Some?
    ensures WellFormed(Unlink(t, d, name).value)
  {
    hide AllNamed, Rooted, Depth;
    var target, k := Find(t[d], name).value, IndexOf(t[d].entries, name);
    var t1 := Unlink(t, d, name).value;
    FindNames(t, d, name);
    NotInItself(t, d, k);
    assert Lost(t, t1, d, k);
    assert t[target].entries == [];
    NamesOkLost(t, t1, d, k);
    UnlinkLinks(t, t1, d, k, target);
    UnlinkRooted(t, t1, target);
  }

  lemma UnlinkLinks(t: Tree, t1: Tree, d: u32, k: nat, target: u32)
    requires LinksOk(t) && AllNamed(t) && Lost(t, t1, d, k) && Names(t, d, k, target) && t1.Keys == t.Keys - {target}
    requires t[target].entries == [] && forall c :: c in t1 ==> t1[c].isDir == t[c].isDir && t1[c].parent == t[c].parent
    ensures LinksOk(t1) && AllNamed(t1)
  {
    hide Names;
    forall c, i, id ensures Names(t1, c, i, id) <==>
        c in t1 && i >= 0 && Names(t, c, if c == d && i >= k then i + 1 else i, id) {
      NamesLost(t, t1, d, k, c, i, id);
    }
    forall id | id in t1 && id != 0 ensures exists c, i :: Names(t1, c, i, id) {
      var c, i :| Names(t, c, i, id);
      NamesRange(t, c, i, id);
      NamesAt(t, d, k, target, i, id);
      assert Names(t1, c, if c == d && i > k then i - 1 else i, id);
    }
  }

  lemma NamesRange(t: Tree, c: u32, i: int, id: u32)
    requires Names(t, c, i, id)
    ensures c in t && i >= 0 && t[c].entries != []
  {
  }

  lemma NamesAt(t: Tree, d: u32, k: int, x: u32, i: int, id: u32)
    requires Names(t, d, k, x)
    ensures Names(t, d, i, id) && i == k ==> id == x
  {
  }

  lemma UnlinkRooted(t: Tree, t1: Tree, target: u32)
    requires WellFormed(t) && target in t && t[target].entries == [] && t1.Keys == t.Keys - {target}
    requires forall c :: c in t1 ==> t1[c].isDir == t[c].isDir && t1[c].parent == t[c].parent
    ensures Rooted(t1)
  {
    hide Depth, Above, NamesOk, LinksOk, AllNamed;
    forall c | c in t1 && t1[c].isDir ensures exists n: nat :: Depth(t1, c, n) {
      var n: nat :| Depth(t, c, n);
      EmptyHasNoDescendants(t, target, c, n);
      DepthKept(t, t1, c, n, target);
    }
  }

  /** One entry gained, then the old entry of the same inode lost: links stay right if the parent is updated. */
  lemma RelinkKeeps(t: Tree, t2: Tree, t1: Tree, d: u32, e: Entry, d0: u32, k: nat)
    requires LinksOk(t) && AllNamed(t) && Gained(t, t2, d, e) && Lost(t2, t1, d0, k) && Names(t, d0, k, e.id)
    requires t1.Keys == t.Keys && forall c :: c in t ==> t1[c].isDir == t[c].isDir
    requires forall c :: c in t && c != e.id ==> t1[c].parent == t[c].parent
    requires t[e.id].isDir ==> t1[e.id].parent == d
    ensures LinksOk(t1) && AllNamed(t1)
  {
    hide Names, LinksOk, AllNamed;
    forall c, i, id
      ensures Names(t1, c, i, id) ==> RelinkedFrom(t, c, i, id, d, e.id, d0, k)
      ensures Names(t1, c, i, id) <== RelinkedFrom(t, c, i, id, d, e.id, d0, k)
    {
      var j := if c == d0 && i >= k then i + 1 else i;
      NamesLost(t2, t1, d0, k, c, i, id);
      NamesGained(t, t2, d, e, c, j, id);
      if Names(t, c, j, id) { NamesRange(t, c, j, id); }
    }
    RelinkLinks(t, t1, d, e.id, d0, k);
    forall id | id in t1 && id != 0 ensures exists c, i :: Names(t1, c, i, id) {
      RelinkNamed(t, t1, d, e.id, d0, k, id);
    }
    assert AllNamed(t1) by { AllNamedBy(t1); }
  }

  lemma AllNamedBy(t: Tree)
    requires forall id :: id in t && id != 0 ==> exists c, i :: Names(t, c, i, id)
    ensures AllNamed(t)
  {
  }

  /** What names `id` after the change: entry `i` of `c` stood one place later if the lost entry came before it. */
  predicate RelinkedFrom(t: Tree, c: u32, i: int, id: u32, d: u32, x: u32, d0: u32, k: nat)
    requires d in t
  {
    && i >= 0 && c in t
    && var j := if c == d0 && i >= k then i + 1 else i;
       Names(t, c, j, id) || (c == d && j == |t[d].entries| && id == x)
  }

  lemma RelinkLinks(t: Tree, t1: Tree, d: u32, x: u32, d0: u32, k: nat)
    requires LinksOk(t) && d in t && Names(t, d0, k, x) && t1.Keys == t.Keys
    requires forall c :: c in t ==> t1[c].isDir == t[c].isDir
    requires forall c :: c in t && c != x ==> t1[c].parent == t[c].parent
    requires t[x].isDir ==> t1[x].parent == d
    requires forall c, i, id :: Names(t1, c, i, id) ==> RelinkedFrom(t, c, i, id, d, x, d0, k)
    ensures LinksOk(t1)
  {
    hide Names;
    forall c, i | Names(t, c, i, x) ensures c == d0 && i == k {}
    forall c, i, id | Names(t, c, i, id) ensures c == d ==> i < |t[d].entries| { NamesBound(t, c, i, id); }
  }

  lemma RelinkNamed(t: Tree, t1: Tree, d: u32, x: u32, d0: u32, k: nat, id: u32)
    requires LinksOk(t) && AllNamed(t) && d in t && Names(t, d0, k, x) && t1.Keys == t.Keys && id in t && id != 0
    requires forall c, i, id :: RelinkedFrom(t, c, i, id, d, x, d0, k) ==> Names(t1, c, i, id)
    ensures exists c, i :: Names(t1, c, i, id)
  {
    hide Names;
    var c, i :| Names(t, c, i, id);
    NamesRange(t, c, i, id);
    NamesBound(t, d0, k, x);
    if id == x {
      var i1 := if d == d0 then |t[d].entries| - 1 else |t[d].entries|;
      assert RelinkedFrom(t, d, i1, id, d, x, d0, k);
    } else {
      NamesAt(t, d0, k, x, i, id);
      var i1 := if c == d0 && i > k then i - 1 else i;
      assert RelinkedFrom(t, c, i1, id, d, x, d0, k);
    }
  }

  lemma NamesBound(t: Tree, c: u32, i: int, id: u32)
    requires Names(t, c, i, id)
    ensures i < |t[c].entries|
  {
  }

  lemma IndexOfKept(entries: seq<Entry>, name: Name, e: Entry)
    requires IndexOf(entries, name) < |entries|
    ensures IndexOf(entries + [e], name) == IndexOf(entries, name)
  {
    assert forall j :: 0 <= j < |entries| ==> (entries + [e])[j] == entries[j];
  }

  lemma RenameShape(t: Tree, d: u32, oldName: Name, newName: Name, id: u32)
    requires d in t && Find(t[d], oldName) == Some(id)
    ensures var t2 := AddEntry(t, d, newName, id);
            Gained(t, t2, d, Entry(newName, id))
                && Lost(t2, RemoveEntry(t2, d, oldName), d, IndexOf(t[d].entries, oldName))
  {
    hide IndexOf;
    IndexOfBound(t[d].entries, oldName);
    IndexOfKept(t[d].entries, oldName, Entry(newName, id));
  }

  /** `rename` keeps the tree well-formed. */
  lemma RenameKeeps(t: Tree, d: u32, oldName: Name, newName: Name)
    requires WellFormed(t) && d in t
    ensures Rename(t, d, oldName, newName).Some? ==> WellFormed(Rename(t, d, oldName, newName).value)
    ensures Rename(t, d, oldName, newName).None? <==>
              Reserved(oldName) || Reserved(newName) || Find(t[d], oldName).None? || Find(t[d], newName).Some?
  {
    hide NamesOk, LinksOk, AllNamed, Rooted, Depth, Names, Gained, Lost, IndexOf;
    if Rename(t, d, oldName, newName).Some? {
      var k, id := IndexOf(t[d].entries, oldName), Find(t[d], oldName).value;
      var e := Entry(newName, id);
      FindNames(t, d, oldName);
      var t2 := AddEntry(t, d, newName, id);
      var t1 := Rename(t, d, oldName, newName).value;
      RenameShape(t, d, oldName, newName, id);
      NamesOkGained(t, t2, d, e);
      NamesOkLost(t2, t1, d, k);
      ParentOfNamed(t, d, k, id);
      RelinkKeeps(t, t2, t1, d, e, d, k);
      RootedByParents(t, t1);
    }
  }

  lemma ParentOfNamed(t: Tree, d: u32, k: int, id: u32)
    requires LinksOk(t) && Names(t, d, k, id)
    ensures id in t && id != 0 && (t[id].isDir ==> t[id].parent == d)
  {
  }

  /** `rename_at` into a directory keeps the tree well-formed. */
  lemma MoveKeeps(t: Tree, oldDir: u32, oldName: Name, newDir: u32, newName: Name, n: nat)
    requires WellFormed(t) && oldDir in t && newDir in t && oldDir != newDir && Depth(t, newDir, n)
    ensures Move(t, oldDir, oldName, newDir, newName, n).Some? ==>
              WellFormed(Move(t, oldDir, oldName, newDir, newName, n).value)
  {
    hide WellFormed, NamesOk, LinksOk, AllNamed, Rooted, Depth, Above, Find;
    if Move(t, oldDir, oldName, newDir, newName, n).Some? {
      MoveParts(t, oldDir, oldName, newDir, newName, n);
    }
  }

  /** The shape of a move, whatever `newDir` is: entry `e` gained, entry `k` of `oldDir` lost, `source`'s parent set. */
  lemma MoveShape(t: Tree, oldDir: u32, oldName: Name, newDir: u32, newName: Name, source: u32)
    returns (t2: Tree, t1: Tree)
    requires oldDir in t && newDir in t && oldDir != newDir && Find(t[oldDir], oldName) == Some(source) && source in t
    ensures t1 == Moved(t, oldDir, oldName, newDir, newName, source)
    ensures Gained(t, t2, newDir, Entry(newName, source)) && Lost(t2, t1, oldDir, IndexOf(t[oldDir].entries, oldName))
    ensures t1.Keys == t.Keys && t2.Keys == t.Keys
    ensures forall c :: c in t ==> t1[c].isDir == t[c].isDir && t2[c].isDir == t[c].isDir
    ensures forall c :: c in t && !(c == source && t[c].isDir) ==> t1[c].parent == t[c].parent
    ensures t[source].isDir ==> t1[source].parent == newDir
  {
    hide IndexOf;
    var added := AddEntry(t, newDir, newName, source);
    t2 := if added[source].isDir then added[source := added[source].(parent := newDir)] else added;
    t1 := RemoveEntry(t2, oldDir, oldName);
    IndexOfBound(t[oldDir].entries, oldName);
  }

  lemma IndexOfBound(entries: seq<Entry>, name: Name)
    ensures IndexOf(entries, name) <= |entries|
  {
  }

  lemma MoveParts(t: Tree, oldDir: u32, oldName: Name, newDir: u32, newName: Name, n: nat)
    requires WellFormed(t) && oldDir in t && newDir in t && oldDir != newDir && Depth(t, newDir, n)
    requires Move(t, oldDir, oldName, newDir, newName, n).Some?
    ensures WellFormed(Move(t, oldDir, oldName, newDir, newName, n).value)
  {
    hide NamesOk, LinksOk, AllNamed, Rooted, Depth, Above, Names, Moved, Find, Gained, Lost;
    var k, source := IndexOf(t[oldDir].entries, oldName), Find(t[oldDir], oldName).value;
    var e := Entry(newName, source);
    FindNames(t, oldDir, oldName);
    ParentOfNamed(t, oldDir, k, source);
    var t2, t1 := MoveShape(t, oldDir, oldName, newDir, newName, source);
    DepthDir(t, newDir, n);
    NamesOkGained(t, t2, newDir, e);
    NamesOkLost(t2, t1, oldDir, k);
    RelinkKeeps(t, t2, t1, newDir, e, oldDir, k);
    if t[source].isDir {
      MoveRooted(t, t1, source, newDir, n);
    } else {
      RootedByParents(t, t1);
    }
    assert RootOk(t1);
  }

  /** `link` does not look at what it links into: a move under a file leaves the tree broken, every time.  With
      `MoveKeeps`: a move that is not refused keeps the tree well-formed iff the new parent is a directory. */
  lemma MoveIntoFileBreaks(t: Tree, oldDir: u32, oldName: Name, newDir: u32, newName: Name, n: nat)
    requires WellFormed(t) && oldDir in t && newDir in t && oldDir != newDir && !t[newDir].isDir
    requires Move(t, oldDir, oldName, newDir, newName, n).Some?
    ensures !WellFormed(Move(t, oldDir, oldName, newDir, newName, n).value)
  {
    hide LinksOk, AllNamed, Rooted, Depth, Above, Moved;
    var source := Find(t[oldDir], oldName).value;
    FindNames(t, oldDir, oldName);
    ParentOfNamed(t, oldDir, IndexOf(t[oldDir].entries, oldName), source);
    var t2, t1 := MoveShape(t, oldDir, oldName, newDir, newName, source);
    assert t1[newDir].entries == t2[newDir].entries != [];
  }

  /** A tree that loses one entry loses the way to what it named. */
  lemma OrphanedIsBroken(t: Tree, d: u32, name: Name, source: u32)
    requires WellFormed(t) && d in t && Find(t[d], name) == Some(source)
    ensures !WellFormed(RemoveEntry(t, d, name))
  {
    hide Rooted, NamesOk, Depth;
    var t1, k := RemoveEntry(t, d, name), IndexOf(t[d].entries, name);
    assert Names(t, d, k, source);
    assert source in t1 && source != 0;
    if AllNamed(t1) {
      var c, i :| Names(t1, c, i, source);
      StillNamed(t, d, name, c, i, source);
      assert false;
    }
  }

  /** An entry that is left after a removal was there before, at another place than the one removed. */
  lemma StillNamed(t: Tree, d: u32, name: Name, c: u32, i: int, id: u32)
    requires d in t && Names(RemoveEntry(t, d, name), c, i, id) && IndexOf(t[d].entries, name) < |t[d].entries|
    ensures var i0 := if c == d && i >= IndexOf(t[d].entries, name) then i + 1 else i;
            Names(t, c, i0, id) && !(c == d && i0 == IndexOf(t[d].entries, name))
  {
  }

  /** For a move that is not refused, the result is well-formed iff the new parent is a directory. */
  lemma MoveSafeIffDirectory(t: Tree, oldDir: u32, oldName: Name, newDir: u32, newName: Name, n: nat)
    requires WellFormed(t) && oldDir in t && newDir in t && oldDir != newDir
    requires (t[newDir].isDir ==> Depth(t, newDir, n))
    requires Move(t, oldDir, oldName, newDir, newName, n).Some?
    ensures WellFormed(Move(t, oldDir, oldName, newDir, newName, n).value) <==> t[newDir].isDir
  {
    hide WellFormed, Move, Depth;
    if t[newDir].isDir {
      MoveKeeps(t, oldDir, oldName, newDir, newName, n);
    } else {
      MoveIntoFileBreaks(t, oldDir, oldName, newDir, newName, n);
    }
  }

  /** Two files `a` and `b` in the root. */
  function TwoFiles(): Tree {
    map[0 := Item(true, 0, [Entry([97], 1), Entry([98], 2)]), 1 := Item(false, 0, []), 2 := Item(false, 0, [])]
  }

  /** Such a move happens: `/a` renamed to `/b/a` with `/b` a file is accepted and breaks a well-formed tree. */
  lemma MoveUnderFileAccepted(n: nat)
    ensures WellFormed(TwoFiles()) && Move(TwoFiles(), 0, [97], 2, [97], n).Some?
    ensures !WellFormed(Move(TwoFiles(), 0, [97], 2, [97], n).value)
  {
    hide WellFormed;
    var t := TwoFiles();
    assert t[0].entries[0].name == [97];
    assert Find(t[0], [97]) == Some(1) && Find(t[2], [97]) == None;
    TwoFilesWellFormed();
    MoveIntoFileBreaks(t, 0, [97], 2, [97], n);
  }

  lemma TwoFilesWellFormed()
    ensures WellFormed(TwoFiles())
  {
    var t := TwoFiles();
    assert forall d, i, id :: Names(t, d, i, id) <==> d == 0 && ((i == 0 && id == 1) || (i == 1 && id == 2));
    assert Depth(t, 0, 0) && Rooted(t);
    assert Names(t, 0, 0, 1) && Names(t, 0, 1, 2) && AllNamed(t);
    assert LinksOk(t) by { hide Depth, Rooted, AllNamed; }
    assert NamesOk(t) by { hide Depth, Rooted, AllNamed, Names; }
  }

  lemma DepthDir(t: Tree, d: u32, n: nat)
    requires Depth(t, d, n)
    ensures d in t && t[d].isDir
  {
  }

  lemma MoveRooted(t: Tree, t1: Tree, source: u32, newDir: u32, n: nat)
    requires WellFormed(t) && source in t && source != 0 && t[source].isDir && Depth(t, newDir, n)
    requires !Above(t, source, newDir, n)
    requires t1.Keys == t.Keys && t1[source].isDir && t1[source].parent == newDir
    requires forall c :: c in t && c != source ==> t1[c].isDir == t[c].isDir && t1[c].parent == t[c].parent
    ensures Rooted(t1)
  {
    hide NamesOk, LinksOk, AllNamed, Above;
    DepthKept(t, t1, newDir, n, source);
    assert Depth(t1, source, n + 1);
    forall c | c in t1 && t1[c].isDir ensures exists m: nat :: Depth(t1, c, m) {
      var m: nat :| Depth(t, c, m);
      var m1 := DepthThrough(t, t1, c, m, source, n + 1);
    }
  }

  /** A move between directories is refused for one of these reasons and no other; for a directory, the last is that
      the new parent is the source or lies below it. */
  lemma MoveRefusal(t: Tree, oldDir: u32, oldName: Name, newDir: u32, newName: Name, n: nat)
    requires WellFormed(t) && oldDir in t && newDir in t && oldDir != newDir && Depth(t, newDir, n)
    ensures Move(t, oldDir, oldName, newDir, newName, n).None? <==>
              || Reserved(oldName) || Reserved(newName)
              || Find(t[oldDir], oldName).None? || Find(t[newDir], newName).Some?
              || var source := Find(t[oldDir], oldName).value;
                 source in t && t[source].isDir && Under(t, source, newDir)
  {
    hide WellFormed, Depth, Above, Below, Find, Under;
    if Find(t[oldDir], oldName).Some? {
      var source := Find(t[oldDir], oldName).value;
      if source in t { AboveIsBelow(t, source, newDir, n); }
    }
  }

  // ----- whole runs -----

  datatype Op =
    | Mk(d: u32, name: Name, isDir: bool, id: u32)
    | Rm(d: u32, name: Name)
    | Mv(oldDir: u32, oldName: Name, newDir: u32, newName: Name, depth: nat)

  /** Operands are live directories; a new inode number is unused. */
  ghost predicate Enabled(t: Tree, op: Op) {
    match op
    case Mk(d, _, _, id) => d in t && t[d].isDir && id !in t
    case Rm(d, _) => d in t && t[d].isDir
    case Mv(d0, _, d1, _, n) => d0 in t && t[d0].isDir && Depth(t, d1, n)
  }

  ghost function Step(t: Tree, op: Op): Tree
    requires Enabled(t, op)
  {
    var r := match op
      case Mk(d, name, isDir, id) => Create(t, d, name, isDir, id)
      case Rm(d, name) => Unlink(t, d, name)
      case Mv(d0, oldName, d1, newName, n) =>
        if d0 == d1 then Rename(t, d0, oldName, newName) else Move(t, d0, oldName, d1, newName, n);
    if r.Some? then r.value else t
  }

  ghost predicate Runnable(t: Tree, ops: seq<Op>)
    decreases |ops|
  {
    ops == [] || (Enabled(t, ops[0]) && Runnable(Step(t, ops[0]), ops[1..]))
  }

  ghost function Run(t: Tree, ops: seq<Op>): Tree
    requires Runnable(t, ops)
    decreases |ops|
  {
    if ops == [] then t else Run(Step(t, ops[0]), ops[1..])
  }

  /** The tree `create` makes. */
  function Empty(): Tree { map[0 := Item(true, 0, [])] }

  lemma EmptyWellFormed()
    ensures WellFormed(Empty())
  {
    assert Depth(Empty(), 0, 0);
  }

  /** Every run of create, unlink and rename keeps the tree well-formed. */
  lemma {:induction false} RunKeeps(t: Tree, ops: seq<Op>)
    requires WellFormed(t) && Runnable(t, ops)
    ensures WellFormed(Run(t, ops))
    decreases |ops|
  {
    hide WellFormed, Depth, Create, Unlink, Rename, Move;
    if ops != [] {
      match ops[0] {
        case Mk(d, name, isDir, id) => CreateKeeps(t, d, name, isDir, id);
        case Rm(d, name) => UnlinkKeeps(t, d, name);
        case Mv(d0, oldName, d1, newName, n) =>
          DepthDir(t, d1, n);
          if d0 == d1 { RenameKeeps(t, d0, oldName, newName); } else { MoveKeeps(t, d0, oldName, d1, newName, n); }
      }
      RunKeeps(Step(t, ops[0]), ops[1..]);
    }
  }
}
