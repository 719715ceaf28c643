/**
 How many frames each kernel operation takes.  An operation that maps pages
 takes one frame for each page it fills and one for each page-table page that
 is missing on the way, no more and no less; it fails for want of memory
 exactly when fewer are free.
 */
module CowFrames {
  import opened Wrappers
  import opened PrivateMemory
  import opened CopyOnWrite
  import opened CowRefinement
  import opened FA = FrameAllocator

  // ----- costs -----

  /** The table pages a process has. */
  ghost function Prefixes(m: Machine, pid: nat): set<Prefix> {
    set k | 0 <= k < |TablesOf(m.tables, pid)| :: TablesOf(m.tables, pid)[k].prefix
  }

  function MidOf(v: nat): Prefix { Mid(v / 512 / 512) }
  function LowOf(v: nat): Prefix { Low(v / 512 / 512, v / 512 % 512) }

  /** Table pages missing on the way to page `v`. */
  ghost function TableCost(ps: set<Prefix>, v: nat): nat {
    (if MidOf(v) in ps then 0 else 1) + if LowOf(v) in ps then 0 else 1
  }

  ghost function WithTables(ps: set<Prefix>, v: nat): set<Prefix> { ps + {MidOf(v), LowOf(v)} }

  /** Mapping fresh frames to `[v, hi)`. */
  ghost function PagesCost(ps: set<Prefix>, v: nat, hi: nat): nat
    decreases hi - v
  {
    if v >= hi then 0 else 1 + TableCost(ps, v) + PagesCost(WithTables(ps, v), v + 1, hi)
  }

  /** A user page, which a fork shares instead of copying. */
  predicate UserAt(m: Machine, pid: nat, v: nat) { v in Pt(m, pid) && Pt(m, pid)[v].perm.u }

  /** Forking pages `[v, hi)` of parent `p`, and the table pages the child has afterwards. */
  ghost function ForkCost(m: Machine, p: nat, ps: set<Prefix>, v: nat, hi: nat): nat
    decreases hi - v
  {
    if v >= hi then 0
    else (if UserAt(m, p, v) then 0 else 1) + TableCost(ps, v) + ForkCost(m, p, WithTables(ps, v), v + 1, hi)
  }

  ghost function TablesFor(ps: set<Prefix>, v: nat, hi: nat): set<Prefix>
    decreases hi - v
  {
    if v >= hi then ps else TablesFor(WithTables(ps, v), v + 1, hi)
  }

  ghost function AreasCost(m: Machine, p: nat, ps: set<Prefix>, areas: seq<Area>, i: nat): nat
    decreases |areas| - i
  {
    if i >= |areas| then 0
    else ForkCost(m, p, ps, areas[i].lo, areas[i].hi) + AreasCost(m, p, TablesFor(ps, areas[i].lo, areas[i].hi), areas,
        i + 1)
  }

  /** The root and the trampoline's tables. */
  ghost function NewTables(): set<Prefix> { WithTables({Root}, TRAMPOLINE_VPN) }
  const NEW_SPACE := 3

  /** Frame `p` is shared, once the references in `gone` are given up. */
  ghost predicate SharedYet(m: Machine, p: nat, gone: multiset<nat>) {
    p in m.frames.refCounts && m.frames.refCounts[p] > 1 + gone[p]
  }

  predicate CowAt(m: Machine, pid: nat, v: nat) { v in Pt(m, pid) && Pt(m, pid)[v].cow }

  /** Pages in `[v, end)` that `ensure_private_range` copies: COW, the frame still shared after the copies before it,
      and no page on the way that it refuses. */
  ghost function EnsureCost(m: Machine, pid: nat, v: nat, end: nat, gone: multiset<nat>): nat
    decreases end - v
  {
    if v >= end || v !in Pt(m, pid) || !Pt(m, pid)[v].perm.u then 0
    else
      var e := Pt(m, pid)[v];
      if e.cow && SharedYet(m, e.ppn, gone) then 1 + EnsureCost(m, pid, v + 1, end, gone + multiset{e.ppn})
      else if e.cow || e.perm.w then EnsureCost(m, pid, v + 1, end, gone)
      else 0
  }

  /** Frames the operation takes. */
  ghost function Cost(m: Machine, op: Op): nat {
    match op
    case Spawn(pid) => if pid in m.tables then 0 else NEW_SPACE
    case Fork(pid, child) =>
      if pid !in m.spaces || child in m.tables then 0
          else NEW_SPACE + AreasCost(m, pid, NewTables(), m.spaces[pid].areas, 0)
    case InsertArea(pid, lo, hi, _) =>
      if pid !in m.spaces || !Insertable(Ranges(m.spaces[pid].areas), lo, hi) then 0
          else PagesCost(Prefixes(m, pid), lo, hi)
    case Mmap(pid, start, len, prot) =>
      if pid !in m.spaces then 0
      else (match Placement(Ranges(m.spaces[pid].areas), start, len, prot)
        case None => 0
        case Some(a) => PagesCost(Prefixes(m, pid), a / PAGE_SIZE, (a + RoundUp(len)) / PAGE_SIZE))
    case Store(pid, v, off, _) =>
      if off < PAGE_SIZE && CowAt(m, pid, v) && SharedYet(m, Pt(m, pid)[v].ppn, multiset{}) then 1 else 0
    case EnsurePrivate(pid, va, len) =>
      if len == 0 || Extend(va) + len > USIZE_MAX then 0
      else EnsureCost(m, pid, va / PAGE_SIZE, CeilVpn(Extend(va) + len), multiset{})
    case _ => 0
  }

  // ----- page level -----

  function Free(m: Machine): int { m.frames.Free() }

  /** `n` of the frames that were free are no longer. */
  predicate Took(m: Machine, m1: Machine, n: int) { Free(m1) == Free(m) - n && m1.frames.end == m.frames.end }

  lemma TakeFree(m: Machine, slot: Slot)
    ensures match TakeFrame(m, slot)
            case Ok((m1, p)) => Took(m, m1, 1) && m1.tables == m.tables && m1.spaces == m.spaces
                && p < |m1.mem|
            case OutOfMemory => Free(m) == 0
            case Panic => true
  {
  }

  lemma HasPrefix(m: Machine, pid: nat, x: Prefix)
    ensures HasTable(TablesOf(m.tables, pid), x) <==> x in Prefixes(m, pid)
  {
  }

  lemma AddTableFree(m: Machine, pid: nat, x: Prefix)
    ensures match AddTable(m, pid, x)
            case Ok(m1) =>
              && Took(m, m1, if x in Prefixes(m, pid) then 0 else 1)
              && Prefixes(m1, pid) == Prefixes(m, pid) + {x} && m1.spaces == m.spaces
            case OutOfMemory => Free(m) == 0 && x !in Prefixes(m, pid)
            case Panic => true
  {
    HasPrefix(m, pid, x);
    var ts := TablesOf(m.tables, pid);
    TakeFree(m, Table(pid, |ts|));
    if AddTable(m, pid, x).Ok? && !HasTable(ts, x) {
      var m1 := AddTable(m, pid, x).value;
      var ts1 := TablesOf(m1.tables, pid);
      assert ts1[..|ts|] == ts && ts1[|ts|].prefix == x;
      assert forall y :: y in Prefixes(m, pid) ==> y in Prefixes(m1, pid) by {
        assert forall k :: 0 <= k < |ts| ==> ts1[k] == ts[k];
      }
    }
  }

  lemma AddTablesFree(m: Machine, pid: nat, v: nat)
    ensures match AddTables(m, pid, v)
            case Ok(m1) =>
              && Took(m, m1, TableCost(Prefixes(m, pid), v))
              && Prefixes(m1, pid) == WithTables(Prefixes(m, pid), v) && m1.spaces == m.spaces
            case OutOfMemory => Free(m) < TableCost(Prefixes(m, pid), v)
            case Panic => true
  {
    hide AddTable, Prefixes;
    AddTableFree(m, pid, MidOf(v));
    if AddTable(m, pid, MidOf(v)).Ok? {
      AddTableFree(AddTable(m, pid, MidOf(v)).value, pid, LowOf(v));
    }
  }

  lemma MapPteFree(m: Machine, pid: nat, v: nat, e: Pte)
    ensures match MapPte(m, pid, v, e)
            case Ok(m1) =>
              && Took(m, m1, TableCost(Prefixes(m, pid), v))
              && Prefixes(m1, pid) == WithTables(Prefixes(m, pid), v)
              && pid in m.spaces && m1.spaces == SetPte(m, pid, v, e).spaces
            case OutOfMemory => Free(m) < TableCost(Prefixes(m, pid), v)
            case Panic => true
  {
    hide AddTables, TableCost, WithTables;
    AddTablesFree(m, pid, v);
  }

  lemma MapOneFree(m: Machine, pid: nat, v: nat, perm: Perm)
    ensures match MapOne(m, pid, v, perm)
            case Ok((m1, p)) =>
              && Took(m, m1, 1 + TableCost(Prefixes(m, pid), v))
              && Prefixes(m1, pid) == WithTables(Prefixes(m, pid), v)
              && pid in m.spaces && m1.spaces == SetPte(m, pid, v, Pte(p, perm, false)).spaces
            case OutOfMemory => Free(m) < 1 + TableCost(Prefixes(m, pid), v)
            case Panic => true
  {
    hide TakeFrame, MapPte, TableCost, WithTables;
    TakeFree(m, Data(pid, v));
    if TakeFrame(m, Data(pid, v)).Ok? {
      var (m1, p) := TakeFrame(m, Data(pid, v)).value;
      assert Prefixes(m1, pid) == Prefixes(m, pid);
      MapPteFree(m1, pid, v, Pte(p, perm, false));
    }
  }

  // ----- areas -----

  lemma {:induction false} MapPagesFree(m: Machine, pid: nat, a: Area, v: nat)
    ensures match MapPages(m, pid, a, v)
            case Ok((m1, _)) => Took(m, m1, PagesCost(Prefixes(m, pid), v, a.hi))
            case OutOfMemory => Free(m) < PagesCost(Prefixes(m, pid), v, a.hi)
            case Panic => true
    decreases a.hi - v
  {
    hide MapOne, TableCost, WithTables, Prefixes;
    if v < a.hi {
      MapOneFree(m, pid, v, a.perm);
      if MapOne(m, pid, v, a.perm).Ok? {
        var (m1, p) := MapOne(m, pid, v, a.perm).value;
        MapPagesFree(m1, pid, a.(frames := a.frames[v := p]), v + 1);
      }
    }
  }

  lemma InsertFree(m: Machine, pid: nat, lo: nat, hi: nat, perm: Perm)
    ensures match InsertFramed(m, pid, lo, hi, perm)
            case Ok(m1) => Took(m, m1, PagesCost(Prefixes(m, pid), lo, hi))
            case OutOfMemory => Free(m) < PagesCost(Prefixes(m, pid), lo, hi)
            case Panic => true
  {
    hide MapPages, PagesCost;
    MapPagesFree(m, pid, Area(lo, hi, perm, map[]), lo);
  }

  lemma NewSpaceFree(m: Machine, pid: nat)
    ensures match NewSpace(m, pid)
            case Ok(m1) =>
              && Took(m, m1, NEW_SPACE) && Prefixes(m1, pid) == NewTables()
              && m1.spaces == m.spaces[pid := Space(map[], [])]
            case OutOfMemory => Free(m) < NEW_SPACE
            case Panic => true
  {
    hide AddTables;
    TakeFree(m, Table(pid, 0));
    if TakeFrame(m, Table(pid, 0)).Ok? {
      var (m1, p) := TakeFrame(m, Table(pid, 0)).value;
      var ts := [TableFrame(Root, p)];
      var m2 := m1.(tables := m1.tables[pid := ts], spaces := m1.spaces[pid := Space(map[], [])]);
      assert TablesOf(m2.tables, pid) == ts && ts[0].prefix == Root;
      assert Prefixes(m2, pid) == {Root};
      AddTablesFree(m2, pid, TRAMPOLINE_VPN);
    }
  }

  // ----- fork -----

  /** Forking changes which of the parent's pages are COW, not which are the user's. */
  ghost predicate SameUsers(m: Machine, m1: Machine, p: nat) { forall v :: UserAt(m1, p, v) == UserAt(m, p, v) }

  lemma ShareFree(m: Machine, p: nat, c: nat, v: nat, n: nat)
    requires p != c
    ensures match SharePage(m, p, c, v, n)
            case Ok(m1) =>
              && Took(m, m1, TableCost(Prefixes(m, c), v))
              && Prefixes(m1, c) == WithTables(Prefixes(m, c), v) && SameUsers(m, m1, p)
            case OutOfMemory => Free(m) < TableCost(Prefixes(m, c), v)
            case Panic => true
  {
    hide MapPte, TableCost, WithTables;
    if v in Pt(m, p) && m.frames.AddRef(n).Ok? {
      var e := Pt(m, p)[v];
      var m1 := m.(frames := m.frames.AddRef(n).value, trk := m.trk[Data(c, v) := n]);
      var r := if e.perm.w || e.cow then MarkCow(m1, p, v) else Ok(m1);
      if r.Ok? {
        assert Prefixes(r.value, c) == Prefixes(m, c);
        MapPteFree(r.value, c, v, Shared(e));
      }
    }
  }

  lemma CopyFree(m: Machine, p: nat, c: nat, v: nat, perm: Perm)
    requires p != c
    ensures match CopyPage(m, p, c, v, perm)
            case Ok((m1, _)) =>
              && Took(m, m1, 1 + TableCost(Prefixes(m, c), v))
              && Prefixes(m1, c) == WithTables(Prefixes(m, c), v) && SameUsers(m, m1, p)
            case OutOfMemory => Free(m) < 1 + TableCost(Prefixes(m, c), v)
            case Panic => true
  {
    hide MapOne, TableCost, WithTables;
    MapOneFree(m, c, v, perm);
  }

  lemma {:induction false} ForkPagesFree(m0: Machine, m: Machine, p: nat, c: nat, a: Area, na: Area, v: nat)
    requires p != c && SameUsers(m0, m, p)
    ensures match ForkPages(m, p, c, a, na, v)
            case Ok((m1, _)) =>
              && Took(m, m1, ForkCost(m0, p, Prefixes(m, c), v, a.hi))
              && Prefixes(m1, c) == TablesFor(Prefixes(m, c), v, a.hi) && SameUsers(m0, m1, p)
            case OutOfMemory => Free(m) < ForkCost(m0, p, Prefixes(m, c), v, a.hi)
            case Panic => true
    decreases a.hi - v
  {
    hide SharePage, CopyPage, TableCost, WithTables, Prefixes;
    if v < a.hi && v in Pt(m, p) {
      assert UserAt(m, p, v) == UserAt(m0, p, v);
      if UserAt(m, p, v) {
        if v in a.frames { ShareFree(m, p, c, v, a.frames[v]); }
      } else {
        CopyFree(m, p, c, v, a.perm);
      }
      if ForkPage(m, p, c, a, v).Ok? {
        var (m1, n) := ForkPage(m, p, c, a, v).value;
        assert SameUsers(m0, m1, p);
        ForkPagesFree(m0, m1, p, c, a, na.(frames := na.frames[v := n]), v + 1);
      }
    }
  }

  lemma {:induction false} ForkAreasFree(m0: Machine, m: Machine, p: nat, c: nat, areas: seq<Area>, i: nat)
    requires p != c && SameUsers(m0, m, p)
    ensures match ForkAreas(m, p, c, areas, i)
            case Ok(m1) => Took(m, m1, AreasCost(m0, p, Prefixes(m, c), areas, i))
            case OutOfMemory => Free(m) < AreasCost(m0, p, Prefixes(m, c), areas, i)
            case Panic => true
    decreases |areas| - i
  {
    hide ForkPages, ForkCost, TablesFor;
    if i < |areas| {
      var a := areas[i];
      var na := Area(a.lo, a.hi, a.perm, map[]);
      ForkPagesFree(m0, m, p, c, a, na, a.lo);
      if ForkPages(m, p, c, a, na, a.lo).Ok? {
        var (m1, na1) := ForkPages(m, p, c, a, na, a.lo).value;
        if c in m1.spaces {
          var m2 := PushArea(m1, c, na1);
          assert Prefixes(m2, c) == Prefixes(m1, c);
          assert SameUsers(m0, m2, p) by { assert Pt(m2, p) == Pt(m1, p); }
          ForkAreasFree(m0, m2, p, c, areas, i + 1);
        }
      }
    }
  }

  lemma ForkFree(m: Machine, p: nat, c: nat)
    requires p in m.spaces && p != c
    ensures match ForkSpace(m, p, c)
            case Ok(m1) => Took(m, m1, NEW_SPACE + AreasCost(m, p, NewTables(), m.spaces[p].areas, 0))
            case OutOfMemory => Free(m) < NEW_SPACE + AreasCost(m, p, NewTables(), m.spaces[p].areas, 0)
            case Panic => true
  {
    hide NewSpace, ForkAreas, AreasCost, NewTables;
    NewSpaceFree(m, c);
    if NewSpace(m, c).Ok? {
      var m1 := NewSpace(m, c).value;
      assert SameUsers(m, m1, p) by { assert Pt(m1, p) == Pt(m, p); }
      ForkAreasFree(m, m1, p, c, m.spaces[p].areas, 0);
    }
  }

  // ----- faults -----

  /** `handle_cow_fault` takes a frame iff the page is COW and its frame shared. */
  lemma FaultFree(b: nat, m: Machine, pid: nat, v: nat)
    requires Inv(b, m)
    ensures match HandleCowFault(m, pid, v)
            case Ok((m1, done)) =>
              && Inv(b, m1) && done == CowAt(m, pid, v)
              && Took(m, m1, if done && SharedYet(m, Pt(m, pid)[v].ppn, multiset{}) then 1 else 0)
            case OutOfMemory => Free(m) == 0 && CowAt(m, pid, v) && SharedYet(m, Pt(m, pid)[v].ppn, multiset{})
            case Panic => false
  {
    hide Inv, FaultHandled, HandleCowFault;
    HandleCowFaultOk(b, m, pid, v);
    if HandleCowFault(m, pid, v).Ok? && CowAt(m, pid, v) {
      FaultSpent(b, m, HandleCowFault(m, pid, v).value.0, pid, v);
    }
  }

  lemma FaultSpent(b: nat, m: Machine, m1: Machine, pid: nat, v: nat)
    requires Inv(b, m) && CowAt(m, pid, v) && HandleCowFault(m, pid, v) == Ok((m1, true))
    ensures Inv(b, m1)
    ensures Took(m, m1, if SharedYet(m, Pt(m, pid)[v].ppn, multiset{}) then 1 else 0)
  {
    hide Inv, HandleCowFault, FaultHandled;
    HandleCowFaultOk(b, m, pid, v);
    FaultInvisible(b, m, m1, pid, v);
  }

  lemma StoreFree(b: nat, m: Machine, pid: nat, v: nat, off: nat, x: Byte)
    requires Inv(b, m)
    ensures match StoreByte(m, pid, v, off, x)
            case Ok((m1, _)) => Took(m, m1, Cost(m, Store(pid, v, off, x)))
            case OutOfMemory => Free(m) < Cost(m, Store(pid, v, off, x))
            case Panic => true
  {
    hide Inv, HandleCowFault;
    FaultFree(b, m, pid, v);
    if CowAt(m, pid, v) { CowReadOnly(b, m, pid, v); }
  }

  lemma CowReadOnly(b: nat, m: Machine, pid: nat, v: nat)
    requires Inv(b, m) && CowAt(m, pid, v)
    ensures !Pt(m, pid)[v].perm.w
  {
    assert DataInv(m.spaces, m.trk, m.frames.refCounts);
    assert PtOf(m.spaces, pid) == Pt(m, pid);
  }

  /** The entries from `v` on are as they were in `m0`, and the counts of their frames fell by `gone`. */
  ghost predicate Later(m0: Machine, m: Machine, pid: nat, v: nat, gone: multiset<nat>) {
    && (forall w :: w >= v ==> (w in Pt(m, pid) <==> w in Pt(m0, pid)))
    && forall w :: w >= v && w in Pt(m0, pid) ==>
         && Pt(m, pid)[w] == Pt(m0, pid)[w]
         && var p := Pt(m0, pid)[w].ppn;
            p in m.frames.refCounts && p in m0.frames.refCounts
            && m.frames.refCounts[p] + gone[p] == m0.frames.refCounts[p]
  }

  lemma LaterSame(b: nat, m: Machine, pid: nat, v: nat)
    requires Inv(b, m)
    ensures Later(m, m, pid, v, multiset{})
  {
    assert DataInv(m.spaces, m.trk, m.frames.refCounts);
    assert PtOf(m.spaces, pid) == Pt(m, pid);
  }

  lemma LaterNext(m0: Machine, m: Machine, pid: nat, v: nat, gone: multiset<nat>)
    requires Later(m0, m, pid, v, gone)
    ensures Later(m0, m, pid, v + 1, gone)
  {
  }

  /** A fault resolved in place: the later entries and all counts stay. */
  lemma LaterInPlace(m0: Machine, m: Machine, pid: nat, v: nat, gone: multiset<nat>, e: Pte)
    requires Later(m0, m, pid, v, gone) && pid in m.spaces
    ensures Later(m0, SetPte(m, pid, v, e), pid, v + 1, gone)
  {
  }

  /** A fault resolved by a copy: one reference fewer to the old frame. */
  lemma LaterCopied(m0: Machine, m: Machine, m1: Machine, pid: nat, v: nat, gone: multiset<nat>)
    requires Later(m0, m, pid, v, gone) && ToFresh(m, m1, pid, v) && Repaged(m, m1, pid, v)
    ensures Later(m0, m1, pid, v + 1, gone + multiset{Pt(m, pid)[v].ppn})
  {
    var was, now := Pt(m, pid)[v].ppn, Pt(m1, pid)[v].ppn;
    forall w | w >= v + 1
      ensures w in Pt(m1, pid) <==> w in Pt(m0, pid)
      ensures w in Pt(m0, pid) ==> Pt(m1, pid)[w] == Pt(m0, pid)[w]
      ensures w in Pt(m0, pid) ==>
                var p := Pt(m0, pid)[w].ppn;
                p in m1.frames.refCounts && m1.frames.refCounts[p] + (gone + multiset{was})[p] == m0.frames.refCounts[p]
    {
      if w in Pt(m0, pid) { assert Pt(m0, pid)[w].ppn != now; }
    }
  }

  lemma LaterFault(b: nat, m0: Machine, m: Machine, m1: Machine, pid: nat, v: nat, gone: multiset<nat>)
    requires Inv(b, m) && Later(m0, m, pid, v, gone) && CowAt(m, pid, v) && HandleCowFault(m, pid, v) == Ok((m1, true))
    ensures var p := Pt(m, pid)[v].ppn;
            Later(m0, m1, pid, v + 1, if SharedYet(m, p, multiset{}) then gone + multiset{p} else gone)
  {
    hide Inv, HandleCowFault, Later, Repaged, Sys, AreaInv;
    HandleCowFaultOk(b, m, pid, v);
    var e := Pt(m, pid)[v];
    if m.frames.refCounts[e.ppn] == 1 {
      LaterInPlace(m0, m, pid, v, gone, Resolved(e, e.ppn));
    } else {
      LaterCopied(m0, m, m1, pid, v, gone);
    }
  }

  lemma LaterAt(m0: Machine, m: Machine, pid: nat, v: nat, gone: multiset<nat>)
    requires Later(m0, m, pid, v, gone)
    ensures v in Pt(m, pid) <==> v in Pt(m0, pid)
    ensures v in Pt(m, pid) ==>
              var e := Pt(m, pid)[v];
              e == Pt(m0, pid)[v] && (SharedYet(m, e.ppn, multiset{}) <==> SharedYet(m0, e.ppn, gone))
  {
  }

  lemma {:induction false} EnsureFree(b: nat, m0: Machine, m: Machine, pid: nat, v: nat, end: nat, gone: multiset<nat>)
    requires Inv(b, m) && Later(m0, m, pid, v, gone)
    ensures match EnsurePages(m, pid, v, end)
            case Ok((m1, _)) => Took(m, m1, EnsureCost(m0, pid, v, end, gone))
            case OutOfMemory => Free(m) < EnsureCost(m0, pid, v, end, gone)
            case Panic => true
    decreases end - v
  {
    hide Inv, FaultHandled, HandleCowFault, Later, ToFresh, Repaged;
    if v < end {
      LaterAt(m0, m, pid, v, gone);
      if CowAt(m, pid, v) {
        HandleCowFaultOk(b, m, pid, v);
        FaultFree(b, m, pid, v);
        if HandleCowFault(m, pid, v).Ok? {
          var m1 := HandleCowFault(m, pid, v).value.0;
          var p := Pt(m, pid)[v].ppn;
          LaterFault(b, m0, m, m1, pid, v, gone);
          EnsureFree(b, m0, m1, pid, v + 1, end, if SharedYet(m, p, multiset{}) then gone + multiset{p} else gone);
        }
      } else {
        LaterNext(m0, m, pid, v, gone);
        if v in Pt(m, pid) && Pt(m, pid)[v].perm.u && Pt(m, pid)[v].perm.w {
          EnsureFree(b, m0, m, pid, v + 1, end, gone);
        }
      }
    }
  }

  // ----- operations that only give back -----

  lemma {:induction false} UnmapTakesNothing(m: Machine, pid: nat, a: Area, v: nat)
    ensures match UnmapPages(m, pid, a, v)
            case Ok(m1) => m1.frames.end == m.frames.end
            case OutOfMemory => false
            case Panic => true
    decreases a.hi - v
  {
    if v < a.hi && UnmapOne(m, pid, a, v).Ok? { UnmapTakesNothing(UnmapOne(m, pid, a, v).value, pid, a, v + 1); }
  }

  lemma {:induction false} ClearTakesNothing(m: Machine, pid: nat, areas: seq<Area>, i: nat)
    ensures match ClearAreas(m, pid, areas, i)
            case Ok(m1) => m1.frames.end == m.frames.end
            case OutOfMemory => false
            case Panic => true
    decreases |areas| - i
  {
    hide UnmapPages;
    if i < |areas| {
      UnmapTakesNothing(m, pid, areas[i], areas[i].lo);
      var r := UnmapPages(m, pid, areas[i], areas[i].lo);
      if r.Ok? { ClearTakesNothing(r.value, pid, areas, i + 1); }
    }
  }

  lemma {:induction false} DropTakesNothing(m: Machine, pid: nat, ts: seq<TableFrame>, k: nat)
    ensures match DropTables(m, pid, ts, k)
            case Ok(m1) => m1.frames.end == m.frames.end
            case OutOfMemory => false
            case Panic => true
    decreases |ts| - k
  {
    if k < |ts| {
      var r := DropFrame(m, ts[k].ppn, Table(pid, k));
      if r.Ok? { DropTakesNothing(r.value, pid, ts, k + 1); }
    }
  }

  // ----- frames in use -----

  type Tables = map<nat, seq<TableFrame>>

  ghost function PageFrames(sp: Spaces): set<nat> {
    set pid, v | pid in sp && v in sp[pid].pt :: sp[pid].pt[v].ppn
  }

  ghost function TableFrames(tables: Tables): set<nat> {
    set pid, k | pid in tables && 0 <= k < |tables[pid]| :: tables[pid][k].ppn
  }

  /** Frames that some page is mapped to or that hold a page-table page. */
  ghost function InUse(sp: Spaces, tables: Tables): set<nat> { PageFrames(sp) + TableFrames(tables) }

  /** Nothing is lost: at any time the frames that are not free are those in use. */
  lemma FreeIsUnused(b: nat, m: Machine)
    requires Inv(b, m)
    ensures Free(m) == m.frames.end - b - |InUse(m.spaces, m.tables)|
  {
    hide Partition;
    CountedAreUsed(b, m);
    assert |m.frames.refCounts| == |m.frames.refCounts.Keys|;
    Conservation(b, m.frames);
  }

  lemma CountedAreUsed(b: nat, m: Machine)
    requires Inv(b, m)
    ensures m.frames.refCounts.Keys == InUse(m.spaces, m.tables)
  {
    hide Partition;
    var rc := m.frames.refCounts;
    forall p | p in rc ensures p in InUse(m.spaces, m.tables) {
      assert |Holders(m.trk, p)| > 0;
      var s :| s in Holders(m.trk, p);
      SlotInUse(b, m, s);
    }
    forall pid, v | pid in m.spaces && v in m.spaces[pid].pt ensures m.spaces[pid].pt[v].ppn in rc {
      assert v in PtOf(m.spaces, pid);
    }
    forall pid, k: nat | pid in m.tables && k < |m.tables[pid]| ensures m.tables[pid][k].ppn in rc {
      assert k < |TablesOf(m.tables, pid)|;
    }
  }

  /** Between operations every tracker belongs to a page or a page table. */
  lemma SlotInUse(b: nat, m: Machine, s: Slot)
    requires Inv(b, m) && s in m.trk
    ensures m.trk[s] in InUse(m.spaces, m.tables)
  {
    hide FramesOk, AreaInv;
    match s {
      case Data(pid, v) => assert v in PtOf(m.spaces, pid);
      case Table(pid, k) => assert k < |TablesOf(m.tables, pid)|;
      case _ =>
    }
  }

  /** The page tables and translations left after an operation that gives back. */
  ghost function Left(m: Machine, op: Op): (Spaces, Tables) {
    match op
    case Exit(pid) => (m.spaces - {pid}, m.tables)
    case Reap(pid) => (m.spaces, if pid in m.spaces then m.tables else m.tables - {pid})
    case Munmap(pid, start, len) =>
      if pid !in m.spaces then (m.spaces, m.tables)
      else
        var s := m.spaces[pid];
        var i := MunmapTarget(Ranges(s.areas), start, len);
        if i.None? || i.value >= |s.areas| then (m.spaces, m.tables)
        else (m.spaces[pid := s.(pt := PtMinus(s.pt, s.areas[i.value].lo, s.areas[i.value].hi))], m.tables)
    case _ => (m.spaces, m.tables)
  }

  /** The frames given back: in use before and not by what is left. */
  ghost function Back(m: Machine, op: Op): set<nat> {
    InUse(m.spaces, m.tables) - InUse(Left(m, op).0, Left(m, op).1)
  }

  lemma StepGivesBack(b: nat, m: Machine, op: Op)
    requires Inv(b, m) && !Takes(op)
    ensures match CopyOnWrite.Step(m, op)
            case Ok((m1, _)) => Took(m, m1, -|Back(m, op)|)
            case _ => false
  {
    hide Inv, InUse;
    StepLeaves(b, m, op);
    if CopyOnWrite.Step(m, op).Ok? {
      var m1 := CopyOnWrite.Step(m, op).value.0;
      FreeIsUnused(b, m);
      FreeIsUnused(b, m1);
      Shrinks(InUse(m.spaces, m.tables), InUse(m1.spaces, m1.tables));
    }
  }

  lemma Shrinks(all: set<nat>, part: set<nat>)
    requires part <= all
    ensures |part| == |all| - |all - part|
  {
    assert all == part + (all - part);
  }

  lemma StepLeaves(b: nat, m: Machine, op: Op)
    requires Inv(b, m) && !Takes(op)
    ensures match CopyOnWrite.Step(m, op)
            case Ok((m1, _)) =>
              && Inv(b, m1) && m1.frames.end == m.frames.end
              && InUse(m1.spaces, m1.tables) == InUse(Left(m, op).0, Left(m, op).1)
              && InUse(m1.spaces, m1.tables) <= InUse(m.spaces, m.tables)
            case _ => false
  {
    hide Sys, AreaInv, InUse, ClearAreas, DropTables, UnmapPages, MunmapTarget;
    match op {
      case Exit(pid) =>
        if pid in m.spaces {
          ClearTakesNothing(m, pid, m.spaces[pid].areas, 0);
          ExitOk(b, m, pid);
          FewerUsed(m.spaces, m.spaces - {pid}, m.tables, m.tables);
        } else { assert m.spaces - {pid} == m.spaces; }
      case Reap(pid) =>
        if pid in m.tables && pid !in m.spaces {
          DropTakesNothing(m.(tables := m.tables - {pid}), pid, TablesOf(m.tables, pid), 0);
          ReapOk(b, m, pid);
          FewerUsed(m.spaces, m.spaces, m.tables, m.tables - {pid});
        } else if pid !in m.tables { assert m.tables - {pid} == m.tables; }
      case Munmap(pid, start, len) => if pid in m.spaces { MunmapLeaves(b, m, op); }
    }
  }

  lemma MunmapLeaves(b: nat, m: Machine, op: Op)
    requires Inv(b, m) && op.Munmap? && op.pid in m.spaces
    ensures match CopyOnWrite.Step(m, op)
            case Ok((m1, _)) =>
              && Inv(b, m1) && m1.frames.end == m.frames.end
              && InUse(m1.spaces, m1.tables) == InUse(Left(m, op).0, Left(m, op).1)
              && InUse(m1.spaces, m1.tables) <= InUse(m.spaces, m.tables)
            case _ => false
  {
    hide Sys, AreaInv, InUse, UnmapPages, MunmapTarget, Ranges;
    var s := m.spaces[op.pid];
    var i := MunmapTarget(Ranges(s.areas), op.start, op.len);
    MunmapTakesNothing(m, op.pid, op.start, op.len);
    if i.Some? {
      TargetInside(s.areas, op.start, op.len);
      RemoveAreaOk(b, m, op.pid, i.value);
      var m1 := RemoveArea(m, op.pid, i.value).value;
      FewerUsed(m.spaces, m1.spaces, m.tables, m1.tables);
      FewerUsed(Left(m, op).0, m1.spaces, m.tables, m.tables);
      FewerUsed(m1.spaces, Left(m, op).0, m.tables, m.tables);
    }
  }

  lemma TargetInside(areas: seq<Area>, start: nat, len: nat)
    ensures MunmapTarget(Ranges(areas), start, len).Some? ==>
              MunmapTarget(Ranges(areas), start, len).value < |areas|
  {
  }

  lemma FewerUsed(sp: Spaces, sp1: Spaces, tables: Tables, tables1: Tables)
    requires forall pid :: pid in sp1 ==> pid in sp && sp1[pid].pt.Items <= sp[pid].pt.Items
    requires forall pid :: pid in tables1 ==> pid in tables && tables1[pid] == tables[pid]
    ensures InUse(sp1, tables1) <= InUse(sp, tables)
  {
    forall pid, v | pid in sp1 && v in sp1[pid].pt ensures v in sp[pid].pt && sp[pid].pt[v] == sp1[pid].pt[v] {
      assert (v, sp1[pid].pt[v]) in sp1[pid].pt.Items;
    }
  }

  // ----- one step -----

  /** Operations that may take frames; the others only give frames back. */
  predicate Takes(op: Op) { !op.Exit? && !op.Reap? && !op.Munmap? }

  /** One kernel step takes exactly its cost or gives back exactly the frames no longer in use, and lacks memory only if
      it costs more frames than are free. */
  lemma StepFrames(b: nat, m: Machine, op: Op)
    requires Inv(b, m)
    ensures match CopyOnWrite.Step(m, op)
            case Ok((m1, _)) => Took(m, m1, if Takes(op) then Cost(m, op) else -|Back(m, op)|)
            case OutOfMemory => Free(m) < Cost(m, op)
            case Panic => true
  {
    hide Inv, StoreByte, CowAt, SharedYet, Later, Pt, Back;
    hide NewSpace, ForkSpace, InsertFramed, HandleCowFault, EnsurePages, UnmapPages, ClearAreas, DropTables, PagesCost,
         AreasCost, EnsureCost, Insertable, Placement, RoundUp, ProtPerm, Prefixes, NewTables, MunmapTarget, Free;
    match op {
      case Spawn(pid) => NewSpaceFree(m, pid);
      case Fork(pid, child) =>
        LiveTables(b, m);
        if pid in m.spaces && child !in m.tables { ForkFree(m, pid, child); }
      case InsertArea(pid, lo, hi, perm) => InsertFree(m, pid, lo, hi, perm);
      case Mmap(pid, start, len, prot) =>
        if pid in m.spaces {
          var a := Placement(Ranges(m.spaces[pid].areas), start, len, prot);
          if a.Some? { InsertFree(m, pid, a.value / PAGE_SIZE, (a.value + RoundUp(len)) / PAGE_SIZE, ProtPerm(prot)); }
        }
      case Store(pid, v, off, x) => if pid in m.spaces { StoreFree(b, m, pid, v, off, x); } else { DeadCosts(m, op); }
      case EnsurePrivate(pid, va, len) =>
        LaterSame(b, m, pid, va / PAGE_SIZE);
        if pid in m.spaces {
          EnsureFree(b, m, m, pid, va / PAGE_SIZE, CeilVpn(Extend(va) + len), multiset{});
        } else {
          DeadCosts(m, op);
        }
      case Load(_, _, _) =>
      case _ => StepGivesBack(b, m, op);
    }
  }

  lemma DeadCosts(m: Machine, op: Op)
    requires (op.Store? || op.EnsurePrivate?) && op.pid !in m.spaces
    ensures Cost(m, op) == 0
  {
  }

  lemma LiveTables(b: nat, m: Machine)
    requires Inv(b, m)
    ensures forall pid :: pid in m.spaces ==> pid in m.tables
  {
    assert m.spaces.Keys <= m.tables.Keys;
  }

  lemma MunmapTakesNothing(m: Machine, pid: nat, start: nat, len: nat)
    requires pid in m.spaces
    ensures match MunmapSpace(m, pid, start, len)
            case Ok((m1, _)) => m1.frames.end == m.frames.end
            case OutOfMemory => false
            case Panic => true
  {
    hide UnmapPages, MunmapTarget;
    var areas := m.spaces[pid].areas;
    var i := MunmapTarget(Ranges(areas), start, len);
    if i.Some? && i.value < |areas| {
      UnmapTakesNothing(SetAreas(m, pid, areas[..i.value] + areas[i.value + 1..]), pid, areas[i.value],
          areas[i.value].lo);
    }
  }
}
