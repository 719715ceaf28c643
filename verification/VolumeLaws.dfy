/**
 What a user of the file system can count on, operation by operation and
 without naming how the volume computes it: which names lead where, which
 bytes files hold, and when an operation is refused.
 */
module VolumeLaws {
  import opened Wrappers
  import opened BlockDevice
  import opened FileBytes
  import opened DirBytes
  import opened DirLookups
  import opened V = Volume
  import T = DirTree

  /** A new file or directory: the name leads to an inode that was not there, of the kind asked for, empty; every other
      name leads where it did, and every other file keeps its bytes. */
  ghost predicate MadeOk(v: Volume, v1: Volume, d: u32, name: T.Name, isDir: bool, id: u32) {
    && id !in v.tree && (forall j: u32 :: j < id ==> j in v.tree) && id < v.inodes
    && At(v1.tree, d, name) == Some(id) && OthersLead(v.tree, v1.tree, d, name)
    && v1.tree.Keys == v.tree.Keys + {id} && v1.tree[id] == T.Item(isDir, d, [])
    && v1.data == (if isDir then v.data else v.data[id := []])
  }

  /** What the name led to is gone, with its bytes; nothing else changed. */
  ghost predicate GoneOk(v: Volume, v1: Volume, d: u32, name: T.Name, id: u32) {
    && At(v.tree, d, name) == Some(id) && At(v1.tree, d, name) == None && OthersLead(v.tree, v1.tree, d, name)
    && v1.tree.Keys == v.tree.Keys - {id} && v1.data == v.data - {id}
  }

  /** The new name leads where the old one did, the old one nowhere, nothing else changed. */
  ghost predicate MovedOk(v: Volume, v1: Volume, d: u32, oldName: T.Name, e: u32, newName: T.Name) {
    && At(v.tree, d, oldName).Some? && v1.data == v.data && v1.tree.Keys == v.tree.Keys
    && Redirected(v.tree, v1.tree, d, oldName, e, newName, At(v.tree, d, oldName).value)
  }

  /** The file's bytes are the old ones with `buf` at `offset`, and zero between its old end and `offset`. */
  ghost predicate WroteOk(v: Volume, v1: Volume, i: u32, offset: nat, buf: seq<byte>) {
    && v1.tree == v.tree && i in v.data && v1.data.Keys == v.data.Keys
    && (forall j :: j in v.data && j != i ==> v1.data[j] == v.data[j])
    && var was, now := v.data[i], v1.data[i];
       && |now| == (if |was| < offset + |buf| then offset + |buf| else |was|)
       && forall k :: 0 <= k < |now| ==>
            now[k] == if offset <= k < offset + |buf| then buf[k - offset] else if k < |was| then was[k] else 0
  }

  /** The operations a run performs: operands are live inodes of the right kind, a new name has at most 27 bytes and no
      NUL, a slice to write is not empty. */
  ghost predicate Applies(v: Volume, op: Op) {
    match op
    case Make(d, name, _) => d in v.tree && v.tree[d].isDir && |name| <= 27 && 0 !in name
    case Remove(d, _) => d in v.tree
    case Rename(d, _, e, name) => d in v.tree && e in v.tree && v.tree[e].isDir && |name| <= 27 && 0 !in name
    case Put(i, _, buf) => i in v.data && buf != []
    case Truncate(i) => i in v.data
  }

  lemma AppliesIs(v: Volume, op: Op)
    ensures Applies(v, op) <==> Issued(v, op)
  {
  }

  /** Every operation that is issued does to names and bytes what its answer says. */
  ghost predicate Tells(v: Volume, op: Op, v1: Volume, a: Answer) {
    match (op, a)
    case (Make(d, name, isDir), Made(id)) => MadeOk(v, v1, d, name, isDir, id)
    case (Remove(d, name), Gone(id)) => GoneOk(v, v1, d, name, id)
    case (Rename(d, oldName, e, newName), Moved) => MovedOk(v, v1, d, oldName, e, newName)
    case (Put(i, offset, buf), Wrote) => WroteOk(v, v1, i, offset, buf)
    case (Truncate(i), Cleared) =>
      v1.tree == v.tree && i in v.data && v1.data == v.data[i := []]
    case (_, Refused) => v1 == v && !op.Put? && !op.Truncate?
    case _ => false
  }

  /** When an operation is refused, in terms of what names lead to. */
  ghost predicate RefusedWhen(v: Volume, op: Op) {
    match op
    case Make(d, name, _) => BadName(name) || At(v.tree, d, name).Some?
    case Remove(d, name) =>
      BadName(name) || At(v.tree, d, name).None? || NonEmpty(v.tree, At(v.tree, d, name).value)
    case Rename(d, oldName, e, newName) =>
      || BadName(newName) || At(v.tree, d, oldName).None? || At(v.tree, e, newName).Some?
      || (d != e && IntoItself(v.tree, At(v.tree, d, oldName).value, e))
    case _ => false
  }

  /** Empty, one dot or two dots. */
  predicate BadName(name: T.Name) { |name| <= 2 && forall k :: 0 <= k < |name| ==> name[k] == 46 }

  ghost predicate NonEmpty(t: T.Tree, id: u32) { exists x, j :: At(t, id, x) == Some(j) }

  /** `source` is a directory, and following entries down from it one comes to `e`. */
  ghost predicate IntoItself(t: T.Tree, source: u32, e: u32) {
    source in t && t[source].isDir && T.Under(t, source, e)
  }

  lemma MakeTells(v: Volume, op: Op)
    requires op.Make? && Issued(v, op)
    ensures match Step(v, op)
            case Some((v1, a)) => Tells(v, op, v1, a) && (a == Refused <==> RefusedWhen(v, op))
            case None => !RefusedWhen(v, op)
  {
    hide Lowest, Room, Spent, T.Find, Stem, OthersLead, NameFits;
    var d, name, id := op.d, op.name, Lowest(v.tree.Keys, 0);
    LowestIs(v.tree.Keys, 0);
    ReservedNames(name);
    StemFits(name);
    MadeIsCreated(v, d, name, op.isDir);
    if id < 0x1_0000_0000 && T.Create(v.tree, d, name, op.isDir, id).Some? {
      CreateLeads(v.tree, d, name, op.isDir, id);
    }
  }

  lemma RemoveTells(v: Volume, op: Op)
    requires op.Remove? && Issued(v, op) && T.WellFormed(v.tree)
    ensures match Step(v, op)
            case Some((v1, a)) => Tells(v, op, v1, a) && (a == Refused <==> RefusedWhen(v, op))
            case None => false
  {
    hide T.Find, OthersLead, T.WellFormed, Held, Unique, NonEmpty, BadName, T.Reserved, T.RemoveEntry, DirSize;
    var d, name := op.d, op.name;
    Leads(v.tree, d, name);
    NotItself(v.tree, d, name);
    ReservedIs(name);
    UnlinkLeads(v.tree, d, name);
    if T.Find(v.tree[d], name).Some? { EmptyIs(v.tree, T.Find(v.tree[d], name).value); }
  }

  lemma EmptyIs(t: T.Tree, id: u32)
    ensures NonEmpty(t, id) <==> id in t && t[id].isDir && t[id].entries != []
  {
    if id in t && t[id].isDir && t[id].entries != [] {
      assert At(t, id, t[id].entries[0].name) == Some(t[id].entries[0].id);
    }
  }

  lemma RenameTells(v: Volume, op: Op)
    requires op.Rename? && Issued(v, op) && T.WellFormed(v.tree)
    ensures match Step(v, op)
            case Some((v1, a)) => Tells(v, op, v1, a) && (a == Refused <==> RefusedWhen(v, op))
            case None => !RefusedWhen(v, op)
  {
    hide T.WellFormed, T.Find, Room, Spent, Stem, NameFits, Relinked, Redirected, IntoItself, BadName, T.Reserved,
         DoMoveUnderFile, DirSize;
    StemFits(op.newName);
    ReservedIs(op.newName);
    RelinkedIs(v.tree, op.oldDir, op.oldName, op.newDir, op.newName);
  }

  lemma ReservedIs(name: T.Name)
    ensures T.Reserved(name) <==> BadName(name)
  {
    ReservedNames(name);
  }

  lemma HasDepth(t: T.Tree, e: u32) returns (n: nat)
    requires T.WellFormed(t) && e in t && t[e].isDir
    ensures T.Depth(t, e, n) && DepthAt(t, e) == n
  {
    n :| T.Depth(t, e, n);
    DepthAtIs(t, e, n);
  }

  lemma NotReserved(t: T.Tree, d: u32, name: T.Name)
    requires T.WellFormed(t) && d in t && T.Find(t[d], name).Some?
    ensures !T.Reserved(name)
  {
    hide T.LinksOk, T.AllNamed, T.Rooted, T.Reserved;
  }

  /** A rename or move changes which names lead where, and is refused for a listed reason and no other. */
  lemma RelinkedIs(t: T.Tree, d: u32, oldName: T.Name, e: u32, newName: T.Name)
    requires T.WellFormed(t) && d in t && e in t && t[e].isDir && Stem(newName) == newName
    ensures match Relinked(t, d, oldName, e, newName)
            case Some(t1) =>
              At(t, d, oldName).Some? && t1.Keys == t.Keys
              && Redirected(t, t1, d, oldName, e, newName, At(t, d, oldName).value)
            case None => true
    ensures Relinked(t, d, oldName, e, newName).None? <==>
              || T.Reserved(newName) || At(t, d, oldName).None? || At(t, e, newName).Some?
              || (d != e && IntoItself(t, At(t, d, oldName).value, e))
  {
    hide T.WellFormed, T.Find, Stem, Redirected, T.Reserved, Unique, SameItems, IntoItself;
    Leads(t, d, oldName);
    if T.Find(t[d], oldName).Some? { NotReserved(t, d, oldName); }
    if d == e {
      RenameIs(t, d, oldName, newName);
    } else {
      MoveIs(t, d, oldName, e, newName);
    }
  }

  lemma RenameIs(t: T.Tree, d: u32, oldName: T.Name, newName: T.Name)
    requires d in t && Unique(t[d].entries) && Stem(newName) == newName
    ensures match Relinked(t, d, oldName, d, newName)
            case Some(t1) =>
              At(t, d, oldName).Some? && t1.Keys == t.Keys
              && Redirected(t, t1, d, oldName, d, newName, At(t, d, oldName).value)
            case None => true
    ensures Relinked(t, d, oldName, d, newName).None? <==>
              T.Reserved(oldName) || T.Reserved(newName) || At(t, d, oldName).None? || At(t, d, newName).Some?
  {
    hide T.Find, Stem, Redirected, T.Reserved, Unique, T.AddEntry, T.RemoveEntry;
    RenameLeads(t, d, oldName, newName);
  }

  lemma MoveIs(t: T.Tree, d: u32, oldName: T.Name, e: u32, newName: T.Name)
    requires T.WellFormed(t) && d in t && e in t && d != e && t[e].isDir && Unique(t[d].entries)
    requires Stem(newName) == newName
    ensures match Relinked(t, d, oldName, e, newName)
            case Some(t1) =>
              At(t, d, oldName).Some? && t1.Keys == t.Keys
              && Redirected(t, t1, d, oldName, e, newName, At(t, d, oldName).value)
            case None => true
    ensures Relinked(t, d, oldName, e, newName).None? <==>
              || T.Reserved(oldName) || T.Reserved(newName) || At(t, d, oldName).None? || At(t, e, newName).Some?
              || IntoItself(t, At(t, d, oldName).value, e)
  {
    hide T.WellFormed, T.Find, Stem, Redirected, T.Reserved, Unique, T.Moved, T.Above, DepthAt, T.Depth, IntoItself;
    var n := HasDepth(t, e);
    MoveLeads(t, d, oldName, e, newName, n);
    MoveRefused(t, d, oldName, e, newName, n);
  }

  lemma MoveRefused(t: T.Tree, d: u32, oldName: T.Name, e: u32, newName: T.Name, n: nat)
    requires T.WellFormed(t) && d in t && e in t && d != e && T.Depth(t, e, n)
    ensures T.Move(t, d, oldName, e, newName, n).None? <==>
              || T.Reserved(oldName) || T.Reserved(newName) || At(t, d, oldName).None? || At(t, e, newName).Some?
              || IntoItself(t, At(t, d, oldName).value, e)
  {
    hide T.WellFormed, T.Find, T.Reserved, T.Depth, T.Move, T.Under;
    T.MoveRefusal(t, d, oldName, e, newName, n);
  }

  lemma BytesTell(v: Volume, op: Op)
    requires (op.Put? || op.Truncate?) && Issued(v, op)
    ensures match Step(v, op)
            case Some((v1, a)) => Tells(v, op, v1, a) && a != Refused
            case None => op.Put?
  {
    hide Needed, Held;
  }

  /** Every operation on a well-formed volume does to names and bytes what its answer says, and is refused exactly when
      it should be; one that does not apply changes nothing. */
  lemma StepTells(v: Volume, op: Op)
    requires T.WellFormed(v.tree)
    ensures match Step(v, op)
            case Some((v1, a)) =>
              if Applies(v, op) then Tells(v, op, v1, a) && (a == Refused <==> RefusedWhen(v, op))
              else v1 == v && a == Skipped
            case None => Applies(v, op) && !RefusedWhen(v, op)
  {
    AppliesIs(v, op);
    hide Step, Tells, RefusedWhen, Issued, T.WellFormed, Applies;
    if !Issued(v, op) {
      NotIssuedSkips(v, op);
    } else if op.Make? {
      MakeTells(v, op);
    } else if op.Remove? {
      RemoveTells(v, op);
    } else if op.Rename? {
      RenameTells(v, op);
    } else {
      BytesTell(v, op);
      NeverRefused(v, op);
    }
  }

  lemma NotIssuedSkips(v: Volume, op: Op)
    requires !Issued(v, op)
    ensures Step(v, op) == Some((v, Skipped))
  {
  }

  lemma NeverRefused(v: Volume, op: Op)
    requires op.Put? || op.Truncate?
    ensures !RefusedWhen(v, op)
  {
  }
}
