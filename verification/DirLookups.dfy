/**
 What names lead to after an operation on the tree: the new name to the inode,
 the old name to nothing, and every other name to what it led to before.
 */
module DirLookups {
  import opened Wrappers
  import opened BlockDevice
  import opened DirTree

  /** What `name` leads to in directory `d`. */
  function At(t: Tree, d: u32, name: Name): Option<u32> { if d in t then Find(t[d], name) else None }

  /** Everything but `name` in `d` leads where it did. */
  ghost predicate OthersLead(t: Tree, t1: Tree, d: u32, name: Name) {
    forall c: u32, x :: (c, x) != (d, name) ==> At(t1, c, x) == At(t, c, x)
  }

  /** The same inodes, with kinds and, but for `id`, parents unchanged. */
  ghost predicate SameItems(t: Tree, t1: Tree, id: u32) {
    t1.Keys == t.Keys &&
    forall c :: c in t ==> t1[c].isDir == t[c].isDir && (c != id ==> t1[c].parent == t[c].parent)
  }

  ghost predicate Unique(entries: seq<Entry>) {
    forall i, j :: 0 <= i < j < |entries| ==> entries[i].name != entries[j].name
  }

  /** In a directory whose names differ, a name leads to an inode iff an entry says so; in a file, to nothing. */
  lemma FindIs(item: Item, name: Name, id: u32)
    requires Unique(item.entries)
    ensures Find(item, name) == Some(id) <==> item.isDir && Entry(name, id) in item.entries
  {
    if item.isDir && Entry(name, id) in item.entries {
      var i :| 0 <= i < |item.entries| && item.entries[i] == Entry(name, id);
      IndexAt(item.entries, i);
    }
  }

  lemma IndexAt(entries: seq<Entry>, i: nat)
    requires Unique(entries) && i < |entries|
    ensures IndexOf(entries, entries[i].name) == i
  {
  }

  /** The names refused are the empty one, one dot and two dots. */
  lemma ReservedNames(name: Name)
    ensures Reserved(name) <==> |name| <= 2 && forall k :: 0 <= k < |name| ==> name[k] == 46
  {
    if |name| == 1 && name[0] == 46 { assert name == DOT; }
    if |name| == 2 && name[0] == 46 && name[1] == 46 { assert name == DOTDOT; }
  }

  // ----- one entry more, one less -----

  lemma EntryAdded(item: Item, e: Entry, x: Name)
    ensures var item1 := item.(entries := item.entries + [e]);
            Find(item1, x) == if Find(item, x).None? && item.isDir && e.name == x then Some(e.id) else Find(item, x)
  {
    var all, n := item.entries + [e], |item.entries|;
    assert forall j :: 0 <= j < n ==> all[j] == item.entries[j];
    assert all[n] == e;
  }

  /** The entries without the `k`-th one. */
  lemma CutAt(s: seq<Entry>, k: nat, j: nat)
    requires k < |s| && j < |s| - 1
    ensures (s[..k] + s[k + 1..])[j] == s[if j < k then j else j + 1]
  {
  }

  lemma CutUnique(s: seq<Entry>, k: nat)
    requires Unique(s) && k < |s|
    ensures var s1 := s[..k] + s[k + 1..];
            Unique(s1) && forall j :: 0 <= j < |s1| ==> s1[j].name != s[k].name
  {
    var s1 := s[..k] + s[k + 1..];
    forall j: nat | j < |s1| ensures s1[j] == s[if j < k then j else j + 1] { CutAt(s, k, j); }
  }

  lemma EntryGone(item: Item, name: Name, x: Name)
    requires Unique(item.entries)
    ensures var item1 := item.(entries := Without(item.entries, name));
            Find(item1, x) == if x == name then None else Find(item, x)
    ensures Unique(Without(item.entries, name))
  {
    hide IndexOf;
    var s := item.entries;
    Where(s, name);
    Where(s, x);
    var k := IndexOf(s, name);
    if k < |s| {
      var s1 := s[..k] + s[k + 1..];
      CutUnique(s, k);
      Where(s1, x);
      var i := IndexOf(s, x);
      if i < |s| && x != name {
        var i1 := if i < k then i else i - 1;
        CutAt(s, k, i1);
        IndexAt(s1, i1);
      } else if x != name && IndexOf(s1, x) < |s1| {
        CutAt(s, k, IndexOf(s1, x));
      }
    }
  }

  lemma Where(s: seq<Entry>, x: Name)
    ensures IndexOf(s, x) <= |s| && (IndexOf(s, x) < |s| ==> s[IndexOf(s, x)].name == x)
    ensures forall j :: 0 <= j < IndexOf(s, x) ==> s[j].name != x
  {
  }

  lemma AddedLeads(t: Tree, d: u32, name: Name, id: u32)
    requires d in t && t[d].isDir && Find(t[d], name).None?
    ensures At(AddEntry(t, d, name, id), d, name) == Some(id) && OthersLead(t, AddEntry(t, d, name, id), d, name)
    ensures SameItems(t, AddEntry(t, d, name, id), d) && AddEntry(t, d, name, id)[d].parent == t[d].parent
  {
    hide Find;
    var t1 := AddEntry(t, d, name, id);
    forall x ensures At(t1, d, x) == if x == name then Some(id) else At(t, d, x) {
      EntryAdded(t[d], Entry(name, id), x);
    }
  }

  lemma RemovedLeads(t: Tree, d: u32, name: Name)
    requires d in t && Unique(t[d].entries)
    ensures At(RemoveEntry(t, d, name), d, name) == None && OthersLead(t, RemoveEntry(t, d, name), d, name)
    ensures SameItems(t, RemoveEntry(t, d, name), d) && RemoveEntry(t, d, name)[d].parent == t[d].parent
  {
    hide Find, Without;
    var t1 := RemoveEntry(t, d, name);
    forall x ensures At(t1, d, x) == if x == name then None else At(t, d, x) { EntryGone(t[d], name, x); }
  }

  // ----- the operations -----

  /** After `create_as` the name leads to the new inode, which is of the kind asked for and empty. */
  lemma CreateLeads(t: Tree, d: u32, name: Name, isDir: bool, id: u32)
    requires d in t && t[d].isDir && id !in t && Create(t, d, name, isDir, id).Some?
    ensures var t1 := Create(t, d, name, isDir, id).value;
            && At(t1, d, name) == Some(id) && OthersLead(t, t1, d, name)
            && t1.Keys == t.Keys + {id} && t1[id] == Item(isDir, d, [])
            && forall c :: c in t ==> t1[c].isDir == t[c].isDir && t1[c].parent == t[c].parent
  {
    hide Find;
    var t0 := t[id := Item(isDir, d, [])];
    forall x ensures At(t0, id, x) == None { NothingIn(t0[id], x); }
    AddedLeads(t0, d, name, id);
  }

  lemma NothingIn(item: Item, x: Name)
    requires item.entries == [] || !item.isDir
    ensures Find(item, x) == None
  {
  }

  /** After `unlink` the name leads nowhere and the inode is gone. */
  lemma UnlinkLeads(t: Tree, d: u32, name: Name)
    requires d in t && Unique(t[d].entries) && Find(t[d], name) != Some(d)
    ensures match (Unlink(t, d, name), Find(t[d], name))
            case (Some(t1), Some(target)) =>
              && At(t1, d, name) == None && OthersLead(t, t1, d, name) && t1.Keys == t.Keys - {target}
              && forall c :: c in t1 ==> t1[c].isDir == t[c].isDir && t1[c].parent == t[c].parent
            case (unlinked, _) => unlinked.None?
  {
    RemovedLeads(t, d, name);
    if Unlink(t, d, name).Some? {
      var target := Find(t[d], name).value;
      hide Find, RemoveEntry;
      forall x ensures At(t, target, x) == None { if target in t { NothingIn(t[target], x); } }
    }
  }

  /** `from` in `d` leads nowhere now, `to` in `e` leads to `source`, and every other name where it did. */
  ghost predicate Redirected(t: Tree, t1: Tree, d: u32, from: Name, e: u32, to: Name, source: u32) {
    && At(t1, e, to) == Some(source) && At(t1, d, from) == None
    && forall c: u32, x :: (c, x) != (d, from) && (c, x) != (e, to) ==> At(t1, c, x) == At(t, c, x)
  }

  /** After `rename` the new name leads where the old one did, and the old one nowhere. */
  lemma RenameLeads(t: Tree, d: u32, oldName: Name, newName: Name)
    requires d in t && Unique(t[d].entries)
    ensures match (Rename(t, d, oldName, newName), Find(t[d], oldName))
            case (Some(t1), Some(id)) =>
              && oldName != newName && Redirected(t, t1, d, oldName, d, newName, id) && SameItems(t, t1, d)
              && t1[d].parent == t[d].parent
            case (renamed, _) => renamed.None?
  {
    if Rename(t, d, oldName, newName).Some? {
      var id := Find(t[d], oldName).value;
      DirOf(t[d], oldName);
      AddedLeads(t, d, newName, id);
      AddedUnique(t[d], newName, id);
      RemovedLeads(AddEntry(t, d, newName, id), d, oldName);
      hide Find, RemoveEntry;
    }
  }

  lemma DirOf(item: Item, name: Name)
    requires Find(item, name).Some?
    ensures item.isDir
  {
  }

  lemma AddedUnique(item: Item, name: Name, id: u32)
    requires Unique(item.entries) && item.isDir && Find(item, name).None?
    ensures Unique(item.entries + [Entry(name, id)])
  {
  }

  /** After a move the new name leads in the new directory where the old one did, the old one nowhere, and a directory
      that was moved has the new parent. */
  lemma MoveLeads(t: Tree, oldDir: u32, oldName: Name, newDir: u32, newName: Name, n: nat)
    requires oldDir in t && newDir in t && oldDir != newDir && t[newDir].isDir && Unique(t[oldDir].entries)
    ensures match (Move(t, oldDir, oldName, newDir, newName, n), Find(t[oldDir], oldName))
            case (Some(t1), Some(source)) =>
              && Redirected(t, t1, oldDir, oldName, newDir, newName, source) && SameItems(t, t1, source)
              && (source in t ==> t1[source].parent == if t[source].isDir then newDir else t[source].parent)
            case (moved, _) => moved.None?
  {
    hide Above;
    if Move(t, oldDir, oldName, newDir, newName, n).Some? {
      var source := Find(t[oldDir], oldName).value;
      AddedLeads(t, newDir, newName, source);
      var ta := AddEntry(t, newDir, newName, source);
      var tb := Adopted(ta, source, newDir);
      AdoptedLeads(ta, source, newDir);
      assert tb[oldDir].entries == t[oldDir].entries;
      RemovedLeads(tb, oldDir, oldName);
      assert Move(t, oldDir, oldName, newDir, newName, n).value == RemoveEntry(tb, oldDir, oldName);
      hide Find, RemoveEntry, Move;
    }
  }

  /** A directory gets a new parent. */
  function Adopted(t: Tree, id: u32, parent: u32): Tree {
    if id in t && t[id].isDir then t[id := t[id].(parent := parent)] else t
  }

  lemma AdoptedLeads(t: Tree, id: u32, parent: u32)
    ensures forall c: u32, x :: At(Adopted(t, id, parent), c, x) == At(t, c, x)
    ensures SameItems(t, Adopted(t, id, parent), id)
    ensures id in t ==> Adopted(t, id, parent)[id].parent == if t[id].isDir then parent else t[id].parent
  {
    forall c: u32, x ensures At(Adopted(t, id, parent), c, x) == At(t, c, x) {}
  }

  /** In a well-formed tree names differ in their directory, lead to live inodes, and no directory names itself. */
  lemma Leads(t: Tree, d: u32, name: Name)
    requires WellFormed(t) && d in t
    ensures Unique(t[d].entries)
    ensures Find(t[d], name).Some? ==> Find(t[d], name).value in t && Find(t[d], name).value != 0
  {
    hide AllNamed, Rooted;
    if Find(t[d], name).Some? { assert Names(t, d, IndexOf(t[d].entries, name), Find(t[d], name).value); }
  }

  /** What is unlinked is another inode than the directory it is unlinked from. */
  lemma NotItself(t: Tree, d: u32, name: Name)
    requires WellFormed(t) && d in t
    ensures Find(t[d], name) != Some(d)
  {
    hide AllNamed, NamesOk;
    if Find(t[d], name) == Some(d) {
      assert Names(t, d, IndexOf(t[d].entries, name), d);
      var n: nat :| Depth(t, d, n);
      OwnParent(t, d, n);
    }
  }

  lemma {:induction false} OwnParent(t: Tree, d: u32, n: nat)
    requires d in t && d != 0 && t[d].parent == d
    ensures !Depth(t, d, n)
  {
    if n > 0 { OwnParent(t, d, n - 1); }
  }
}
