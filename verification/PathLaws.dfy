/**
 Every inode has a path: in a well-formed tree the names on the way down from
 the root, with slashes between them, look it up; and `..` in a directory
 leads to the directory that names it.
 */
module PathLaws {
  import opened Wrappers
  import opened BlockDevice
  import opened DirTree
  import opened DirLookups
  import opened P = Paths

  /** One piece of a path from a directory: a dot stays, two dots go to the parent, a name to what it leads to. */
  lemma ComponentIs(t: Tree, d: u32, c: Name)
    requires RootOk(t) && IsDir(t, d)
    ensures ResolveComponent(t, d, c) ==
            if c == [46] then Some(d) else if c == [46, 46] then Some(t[d].parent) else At(t, d, c)
  {
  }

  /** No name has a slash in it. */
  ghost predicate NoSlashes(t: Tree) {
    forall d, i :: d in t && 0 <= i < |t[d].entries| ==> SLASH !in t[d].entries[i].name
  }

  /** An entry is what its name leads to, and can be walked. */
  lemma EntryWalks(t: Tree, d: u32, i: int, id: u32)
    requires WellFormed(t) && NoSlashes(t) && Names(t, d, i, id)
    ensures IsDir(t, d) && ResolveComponent(t, d, t[d].entries[i].name) == Some(id)
    ensures Proper([t[d].entries[i].name])
  {
    hide LinksOk, AllNamed, Rooted;
    var name := t[d].entries[i].name;
    assert Unique(t[d].entries);
    assert t[d].entries[i] == Entry(name, id) && Entry(name, id) in t[d].entries;
    FindIs(t[d], name, id);
  }

  /** The names on the way down to a directory. */
  lemma {:induction false} DirectoryPath(t: Tree, d: u32, n: nat) returns (parts: seq<Name>)
    requires WellFormed(t) && NoSlashes(t) && Depth(t, d, n)
    ensures Proper(parts) && Walk(t, 0, parts) == Some(d)
    decreases n
  {
    hide WellFormed, NoSlashes, Walk, ResolveComponent, Reserved;
    if n == 0 {
      parts := [];
      WalkNone(t);
    } else {
      var i := NamedInParent(t, d);
      var up := DirectoryPath(t, t[d].parent, n - 1);
      parts := StepDown(t, up, t[d].parent, i, d);
    }
  }

  lemma StepDown(t: Tree, up: seq<Name>, d: u32, i: int, id: u32) returns (parts: seq<Name>)
    requires WellFormed(t) && NoSlashes(t) && Names(t, d, i, id) && Proper(up) && Walk(t, 0, up) == Some(d)
    ensures parts != [] && Proper(parts) && Walk(t, 0, parts) == Some(id)
  {
    hide WellFormed, NoSlashes, Walk, ResolveComponent, Reserved;
    var name := t[d].entries[i].name;
    EntryWalks(t, d, i, id);
    WalkAppend(t, 0, up, name);
    parts := up + [name];
    assert [name][0] == name;
  }

  lemma InodePath(t: Tree, id: u32) returns (parts: seq<Name>)
    requires WellFormed(t) && NoSlashes(t) && id in t
    ensures Proper(parts) && Walk(t, 0, parts) == Some(id)
  {
    hide NamesOk, LinksOk, Walk, NoSlashes, ResolveComponent, Reserved, Depth;
    if id == 0 {
      parts := [];
      WalkNone(t);
    } else {
      var d, i :| Names(t, d, i, id);
      EntryWalks(t, d, i, id);
      var n: nat :| Depth(t, d, n);
      var up := DirectoryPath(t, d, n);
      parts := StepDown(t, up, d, i, id);
    }
  }

  lemma RootLookup(t: Tree)
    ensures Lookup(t, 0, [SLASH]) == Some(0)
  {
  }

  /** Looking up a slash and the names with slashes between them is walking the names. */
  lemma RenderedLookup(t: Tree, parts: seq<Name>)
    requires RootOk(t) && Proper(parts)
    ensures Lookup(t, 0, [SLASH] + P.Join(parts)) == Walk(t, 0, parts)
  {
    hide Walk, Lookup, Split, Find;
    var path := [SLASH] + P.Join(parts);
    LookupExact(t, 0, path);
    WalkAllIsWalk(t, 0, Split(path));
    if parts == [] {
      assert path == [SLASH];
      RootLookup(t);
      WalkNone(t);
    } else {
      SplitName([], P.Join(parts));
      assert [] + [SLASH] + P.Join(parts) == path;
      SplitJoin(parts);
      NonEmptySkips(parts);
      NonEmptyClean(parts);
      JoinEnd(parts);
    }
  }

  /** Every inode of a well-formed tree has an absolute path that leads to it, which normalising leaves alone. */
  lemma EveryInodeHasPath(t: Tree, id: u32) returns (path: seq<byte>)
    requires WellFormed(t) && NoSlashes(t) && id in t
    ensures Absolute(path) && Lookup(t, 0, path) == Some(id) && Normalized(path) == path
  {
    hide Walk, Lookup, NoSlashes;
    assert RootOk(t);
    hide WellFormed;
    var parts := InodePath(t, id);
    path := [SLASH] + P.Join(parts);
    RenderedLookup(t, parts);
    NormalAlready(parts);
  }

  lemma NormalAlready(parts: seq<Name>)
    requires Proper(parts)
    ensures Normalized([SLASH] + P.Join(parts)) == [SLASH] + P.Join(parts)
  {
    hide Split, P.Join;
    var path := [SLASH] + P.Join(parts);
    if parts == [] {
      JoinNone();
      assert path == [SLASH];
      RootNormal();
    } else {
      SplitName([], P.Join(parts));
      assert [] + [SLASH] + P.Join(parts) == path;
      SplitJoin(parts);
      assert ([[]] + parts)[1..] == parts;
      StackOfProper([], parts);
      assert Stack([], [[]] + parts) == Stack([], parts) == [] + parts == parts;
      JoinNotEmpty(parts);
    }
  }

  lemma RootNormal()
    ensures Normalized([SLASH]) == [SLASH]
  {
    assert [SLASH][1..] == [];
    var one: seq<Name> := [[]];
    assert Split([SLASH]) == one + one;
    assert (one + one)[1..] == one && one[1..] == [];
    assert Stack([], one + one) == Stack([], one) == Stack([], []) == [];
  }

  /** `..` leads from a directory to the one whose entry names it. */
  lemma DotDotIsUp(t: Tree, d: u32, name: Name, c: u32)
    requires WellFormed(t) && d in t && At(t, d, name) == Some(c) && IsDir(t, c)
    ensures ResolveComponent(t, c, [46, 46]) == Some(d)
  {
    hide NamesOk, AllNamed, Rooted;
    assert Names(t, d, IndexOf(t[d].entries, name), c);
  }
}
