/**
 The flat page table of `CopyOnWrite`, a map from page numbers to entries with
 the set of table pages beside it, is what the Sv39 tree of `RadixTable`
 implements: over every run of `map`, `map_cow`, `mark_cow`, `resolve_cow` and
 `unmap` (os/src/mm/page_table.rs) both answer alike, take the same number of
 frames and panic at the same places.
 */
module TableRefinement {
  import opened Wrappers
  import PM = PrivateMemory
  import C = CopyOnWrite
  import F = CowFrames
  import R = RadixTable

  // ----- numbers -----

  function Bit(x: bv9, mask: bv9): (b: nat)
    ensures b <= 1
  {
    if x & mask != 0 then 1 else 0
  }

  function Low3(x: bv9): (k: nat)
    ensures k < 8
  {
    Bit(x, 1) + 2 * Bit(x, 2) + 4 * Bit(x, 4)
  }

  function Mid3(x: bv9): (k: nat)
    ensures k < 8
  {
    Bit(x, 8) + 2 * Bit(x, 16) + 4 * Bit(x, 32)
  }

  function High3(x: bv9): (k: nat)
    ensures k < 8
  {
    Bit(x, 64) + 2 * Bit(x, 128) + 4 * Bit(x, 256)
  }

  /** An index as a number, from its binary digits. */
  function Num9(i: R.Index): (k: nat)
    ensures k < 512
  {
    Low3(i.n) + 8 * Mid3(i.n) + 64 * High3(i.n)
  }

  lemma Num9Injective(a: R.Index, b: R.Index)
    requires Num9(a) == Num9(b)
    ensures a == b
  {
    hide Bit;
    Octals(Low3(a.n), Mid3(a.n), High3(a.n), Low3(b.n), Mid3(b.n), High3(b.n));
    Digits(Bit(a.n, 1), Bit(a.n, 2), Bit(a.n, 4), Bit(b.n, 1), Bit(b.n, 2), Bit(b.n, 4));
    Digits(Bit(a.n, 8), Bit(a.n, 16), Bit(a.n, 32), Bit(b.n, 8), Bit(b.n, 16), Bit(b.n, 32));
    Digits(Bit(a.n, 64), Bit(a.n, 128), Bit(a.n, 256), Bit(b.n, 64), Bit(b.n, 128), Bit(b.n, 256));
    SameBits(a.n, b.n);
  }

  lemma Octals(a: nat, b: nat, c: nat, x: nat, y: nat, z: nat)
    requires a < 8 && b < 8 && x < 8 && y < 8 && a + 8 * b + 64 * c == x + 8 * y + 64 * z
    ensures a == x && b == y && c == z
  {
    assert (a + 8 * (b + 8 * c)) % 8 == a && (x + 8 * (y + 8 * z)) % 8 == x;
    assert (b + 8 * c) % 8 == b && (y + 8 * z) % 8 == y;
  }

  lemma Digits(a: nat, b: nat, c: nat, x: nat, y: nat, z: nat)
    requires a <= 1 && b <= 1 && c <= 1 && x <= 1 && y <= 1 && z <= 1 && a + 2 * b + 4 * c == x + 2 * y + 4 * z
    ensures a == x && b == y && c == z
  {
  }

  lemma SameBits(a: bv9, b: bv9)
    requires Bit(a, 1) == Bit(b, 1) && Bit(a, 2) == Bit(b, 2) && Bit(a, 4) == Bit(b, 4)
    requires Bit(a, 8) == Bit(b, 8) && Bit(a, 16) == Bit(b, 16) && Bit(a, 32) == Bit(b, 32)
    requires Bit(a, 64) == Bit(b, 64) && Bit(a, 128) == Bit(b, 128) && Bit(a, 256) == Bit(b, 256)
    ensures a == b
  {
  }

  /** A page number as a number. */
  function Num(v: R.Vpn): nat { 512 * (512 * Num9(R.I0(v)) + Num9(R.I1(v))) + Num9(R.I2(v)) }

  lemma NumParts(v: R.Vpn)
    ensures Num(v) / 512 / 512 == Num9(R.I0(v)) && Num(v) / 512 % 512 == Num9(R.I1(v))
    ensures Num(v) % 512 == Num9(R.I2(v))
  {
    hide Num9;
  }

  lemma NumInjective(a: R.Vpn, b: R.Vpn)
    requires Num(a) == Num(b)
    ensures a == b
  {
    hide Num9, Num;
    NumParts(a);
    NumParts(b);
    Num9Injective(R.I0(a), R.I0(b));
    Num9Injective(R.I1(a), R.I1(b));
    Num9Injective(R.I2(a), R.I2(b));
    R.IndexesInjective(a, b);
  }

  function Frame(p: R.Ppn): nat { p.n as nat }

  // ----- entries and table pages -----

  function PermOf(f: bv8): PM.Perm { PM.Perm(f & 2 != 0, f & 4 != 0, f & 8 != 0, f & 16 != 0) }

  function Decoded(e: R.Bits): C.Pte { C.Pte(Frame(R.PpnOf(e)), PermOf(R.FlagsOf(e)), R.IsCow(e)) }

  function PrefixOf(x: R.TreePath): C.Prefix {
    match x
    case Root => C.Root
    case Mid(i) => C.Mid(Num9(i))
    case Low(i, j) => C.Low(Num9(i), Num9(j))
  }

  /** The flags in numbers: 2 lets read, 4 write, 8 execute, 16 is the user's; others do not matter here. */
  lemma PermNumbers(a: bv8, b: bv8)
    ensures PermOf(0x02) == PM.Perm(true, false, false, false) && PermOf(0x04) == PM.Perm(false, true, false, false)
    ensures PermOf(0x08) == PM.Perm(false, false, true, false) && PermOf(0x10) == PM.Perm(false, false, false, true)
    ensures PermOf(0xe1) == PM.Perm(false, false, false, false)
    ensures PermOf(a | b).r == (PermOf(a).r || PermOf(b).r) && PermOf(a | b).w == (PermOf(a).w || PermOf(b).w)
    ensures PermOf(a | b).x == (PermOf(a).x || PermOf(b).x) && PermOf(a | b).u == (PermOf(a).u || PermOf(b).u)
  {
  }

  lemma PlainDecoded(ppn: R.Ppn, flags: bv8)
    ensures Decoded(R.New(ppn, flags | R.V)) == C.Pte(Frame(ppn), PermOf(flags), false)
    ensures R.IsValid(R.New(ppn, flags | R.V))
  {
    hide R.New, R.PpnOf, R.FlagsOf, R.IsCow, Frame;
    R.EncodingRoundTrip(ppn, flags | R.V);
    SetV(flags);
  }

  lemma CowDecoded(ppn: R.Ppn, flags: bv8)
    ensures Decoded(R.NewCow(ppn, flags)) == C.Pte(Frame(ppn), PermOf(flags), true)
    ensures R.IsValid(R.NewCow(ppn, flags)) <==> flags & R.V != 0
  {
    hide R.NewCow, R.PpnOf, R.FlagsOf, R.IsCow, Frame, PermOf;
    R.EncodingRoundTrip(ppn, flags);
  }

  lemma SetV(flags: bv8)
    ensures PermOf(flags | R.V) == PermOf(flags) && (flags | R.V) & R.V != 0
  {
  }

  lemma DropW(flags: bv8)
    ensures PermOf(flags & !R.W) == PermOf(flags).(w := false)
    ensures flags & R.V != 0 ==> (flags & !R.W) & R.V != 0
  {
  }

  lemma SetW(flags: bv8)
    ensures PermOf(flags | R.W) == PermOf(flags).(w := true)
  {
  }

  lemma WritableIs(e: R.Bits)
    ensures R.Writable(e) == Decoded(e).perm.w
  {
    hide R.PpnOf, R.IsCow, R.FlagsOf;
  }

  // ----- the relation -----

  type Pages = map<nat, C.Pte>

  ghost predicate Agrees(t: R.Table, pt: Pages, v: R.Vpn) {
    var e := R.FlatAt(t, v);
    if Num(v) in pt then R.IsValid(e) && Decoded(e) == pt[Num(v)] else !R.IsValid(e)
  }

  ghost predicate IsPage(k: nat) { exists v :: Num(v) == k }

  /** The tree `t` stands for the entries `pt` and has the table pages `ps`. */
  ghost predicate Implements(t: R.Table, pt: Pages, ps: set<C.Prefix>) {
    && R.Tree(t) && (forall v :: Agrees(t, pt, v)) && (forall k :: k in pt ==> IsPage(k))
    && forall x :: R.InTree(t, x) <==> PrefixOf(x) in ps
  }

  // ----- steps -----

  datatype TableOp =
    | Map(v: R.Vpn, ppn: R.Ppn, flags: bv8)
    | MapCow(v: R.Vpn, ppn: R.Ppn, flags: bv8)
    | MarkCow(v: R.Vpn)
    | ResolveCow(v: R.Vpn, ppn: R.Ppn)
    | Unmap(v: R.Vpn)

  function TreeStep(t: R.Table, op: TableOp): Outcome<R.Table> {
    match op
    case Map(v, ppn, flags) => R.Map(t, v, ppn, flags)
    case MapCow(v, ppn, flags) => R.MapCow(t, v, ppn, flags)
    case MarkCow(v) => R.MarkCow(t, v)
    case ResolveCow(v, ppn) => R.ResolveCow(t, v, ppn)
    case Unmap(v) => R.Unmap(t, v)
  }

  /** A new entry in the flat table, with `free` frames left to make table pages of. */
  ghost function MapFlat(pt: Pages, ps: set<C.Prefix>, free: nat, k: nat, e: C.Pte)
    : Outcome<(Pages, set<C.Prefix>, nat)>
  {
    if k in pt then Panic
    else if free < F.TableCost(ps, k) then OutOfMemory
    else Ok((pt[k := e], F.WithTables(ps, k), free - F.TableCost(ps, k)))
  }

  ghost function FlatStep(pt: Pages, ps: set<C.Prefix>, free: nat, op: TableOp): Outcome<(Pages, set<C.Prefix>, nat)> {
    match op
    case Map(v, ppn, flags) => MapFlat(pt, ps, free, Num(v), C.Pte(Frame(ppn), PermOf(flags), false))
    case MapCow(v, ppn, flags) =>
      MapFlat(pt, ps, free, Num(v), C.Pte(Frame(ppn), PermOf(flags).(w := false), true))
    case MarkCow(v) =>
      if Num(v) !in pt || pt[Num(v)].cow == pt[Num(v)].perm.w then Panic
      else Ok((pt[Num(v) := C.Shared(pt[Num(v)])], ps, free))
    case ResolveCow(v, ppn) =>
      if Num(v) !in pt || !pt[Num(v)].cow then Panic
      else Ok((pt[Num(v) := C.Resolved(pt[Num(v)], Frame(ppn))], ps, free))
    case Unmap(v) => if Num(v) !in pt then Panic else Ok((pt - {Num(v)}, ps, free))
  }

  /** Both steps end alike, with the same frames left. */
  ghost predicate Alike(a: Outcome<R.Table>, b: Outcome<(Pages, set<C.Prefix>, nat)>) {
    match a
    case Ok(t1) => b.Ok? && Implements(t1, b.value.0, b.value.1) && |t1.supply| == b.value.2
    case OutOfMemory => b == OutOfMemory
    case Panic => b == Panic
  }

  lemma MissingIsCost(t: R.Table, pt: Pages, ps: set<C.Prefix>, v: R.Vpn)
    requires Implements(t, pt, ps)
    ensures R.Missing(t, v) == F.TableCost(ps, Num(v))
    ensures Num(v) in pt ==> R.Missing(t, v) == 0
  {
    hide R.IsValid, R.PpnOf, R.Entry, Num, Num9, R.I0, R.I1, Agrees;
    NumParts(v);
    assert R.InTree(t, R.Mid(R.I0(v))) <==> PrefixOf(R.Mid(R.I0(v))) in ps;
    assert R.InTree(t, R.Low(R.I0(v), R.I1(v))) <==> PrefixOf(R.Low(R.I0(v), R.I1(v))) in ps;
    if Num(v) in pt { MappedHasTables(t, pt, v); }
  }

  lemma MappedHasTables(t: R.Table, pt: Pages, v: R.Vpn)
    requires Agrees(t, pt, v) && Num(v) in pt
    ensures R.Missing(t, v) == 0
  {
    hide R.PpnOf, R.I0, R.I1, R.I2, Num, Decoded, R.Entry;
    R.ZeroIsInvalid();
    hide R.IsValid;
  }

  /** The flat map changes at one page, and the tree changes with it. */
  lemma EntryChanged(t: R.Table, t1: R.Table, pt: Pages, v: R.Vpn, e: R.Bits, pt1: Pages)
    requires (forall w :: Agrees(t, pt, w)) && R.ChangesOnly(t, t1, v, e)
    requires pt1 == (if R.IsValid(e) then pt[Num(v) := Decoded(e)] else pt - {Num(v)})
    ensures forall w :: Agrees(t1, pt1, w)
  {
    hide R.IsValid, R.FlatAt, Decoded, Num, R.Tree, R.Beside;
    forall w ensures Agrees(t1, pt1, w) {
      assert Agrees(t, pt, w);
      if Num(w) == Num(v) { NumInjective(w, v); }
    }
  }

  lemma PagesGrow(t: R.Table, t1: R.Table, ps: set<C.Prefix>, v: R.Vpn)
    requires (forall x :: R.InTree(t, x) <==> PrefixOf(x) in ps) && R.PagesAdded(t, t1, v)
    ensures forall x :: R.InTree(t1, x) <==> PrefixOf(x) in F.WithTables(ps, Num(v))
  {
    hide R.InTree, Num, Num9, R.I0, R.I1;
    NumParts(v);
    forall x ensures R.InTree(t1, x) <==> PrefixOf(x) in F.WithTables(ps, Num(v)) {
      assert R.InTree(t, x) <==> PrefixOf(x) in ps;
      match x {
        case Root =>
        case Mid(i) => if Num9(i) == Num9(R.I0(v)) { Num9Injective(i, R.I0(v)); }
        case Low(i, j) =>
          if Num9(i) == Num9(R.I0(v)) && Num9(j) == Num9(R.I1(v)) {
            Num9Injective(i, R.I0(v));
            Num9Injective(j, R.I1(v));
          }
      }
    }
  }

  lemma MapAlike(t: R.Table, pt: Pages, ps: set<C.Prefix>, v: R.Vpn, r: Outcome<R.Table>, bits: R.Bits)
    requires Implements(t, pt, ps) && R.IsValid(bits)
    requires match r
             case Panic => R.IsValid(R.FlatAt(t, v))
             case OutOfMemory => |t.supply| < R.Missing(t, v) && !R.IsValid(R.FlatAt(t, v))
             case Ok(t1) =>
               && !R.IsValid(R.FlatAt(t, v)) && R.Missing(t, v) <= |t.supply| && R.ChangesOnly(t, t1, v, bits)
               && R.PagesAdded(t, t1, v) && |t1.supply| == |t.supply| - R.Missing(t, v)
    ensures Alike(r, MapFlat(pt, ps, |t.supply|, Num(v), Decoded(bits)))
  {
    hide R.IsValid, R.FlatAt, R.InTree, R.Tree, R.Missing, R.PagesAdded, R.Beside, Decoded, Num, F.TableCost,
         F.WithTables, R.I0, R.I1;
    MissingIsCost(t, pt, ps, v);
    assert Agrees(t, pt, v);
    if r.Ok? {
      EntryChanged(t, r.value, pt, v, bits, pt[Num(v) := Decoded(bits)]);
      PagesGrow(t, r.value, ps, v);
      assert IsPage(Num(v));
    }
  }

  /** One operation on the tree is the operation on the flat table. */
  lemma StepAlike(t: R.Table, pt: Pages, ps: set<C.Prefix>, op: TableOp)
    requires Implements(t, pt, ps)
    ensures Alike(TreeStep(t, op), FlatStep(pt, ps, |t.supply|, op))
  {
    hide R.FlatAt, R.InTree, R.Missing, R.Map, R.MapCow, R.MarkCow, R.ResolveCow, R.Unmap, Num, Decoded, Implements,
         MapFlat, PermOf, R.New, R.NewCow, R.PagesAdded, R.ChangesOnly, R.IsValid, Alike, Frame;
    assert R.Tree(t) by { TreeOf(t, pt, ps); }
    match op {
      case Map(v, ppn, flags) =>
        R.MapChangesOne(t, v, ppn, flags);
        PlainDecoded(ppn, flags);
        MapAlike(t, pt, ps, v, R.Map(t, v, ppn, flags), R.New(ppn, flags | R.V));
      case MapCow(v, ppn, flags) =>
        R.MapCowChangesOne(t, v, ppn, flags);
        CowDecoded(ppn, (flags & !R.W) | R.V);
        DropW(flags);
        SetV(flags & !R.W);
        MapAlike(t, pt, ps, v, R.MapCow(t, v, ppn, flags), R.NewCow(ppn, (flags & !R.W) | R.V));
      case MarkCow(v) => MarkAlike(t, pt, ps, v);
      case ResolveCow(v, ppn) => ResolveAlike(t, pt, ps, v, ppn);
      case Unmap(v) => UnmapAlike(t, pt, ps, v);
    }
  }

  lemma TreeOf(t: R.Table, pt: Pages, ps: set<C.Prefix>)
    requires Implements(t, pt, ps)
    ensures R.Tree(t)
  {
  }

  lemma SameImplements(t: R.Table, t1: R.Table, pt: Pages, ps: set<C.Prefix>, v: R.Vpn, bits: R.Bits, pt1: Pages)
    requires Implements(t, pt, ps) && R.ChangesOnly(t, t1, v, bits) && R.SamePages(t, t1)
    requires pt1 == (if R.IsValid(bits) then pt[Num(v) := Decoded(bits)] else pt - {Num(v)})
    ensures Implements(t1, pt1, ps)
  {
    hide R.IsValid, R.FlatAt, R.InTree, R.Tree, Decoded, Num, R.Beside;
    EntryChanged(t, t1, pt, v, bits, pt1);
    assert IsPage(Num(v));
  }

  lemma MarkAlike(t: R.Table, pt: Pages, ps: set<C.Prefix>, v: R.Vpn)
    requires Implements(t, pt, ps)
    ensures Alike(R.MarkCow(t, v), FlatStep(pt, ps, |t.supply|, MarkCow(v)))
  {
    hide R.FlatAt, R.InTree, R.MarkCow, Num, R.NewCow, R.Tree, R.Beside, R.PpnOf, R.FlagsOf, R.IsCow, R.ChangesOnly,
         PermOf, Frame, R.Writable;
    var e := R.FlatAt(t, v);
    R.MarkCowChangesOne(t, v);
    assert Agrees(t, pt, v);
    WritableIs(e);
    if R.MarkCow(t, v).Ok? && !R.IsCow(e) {
      var bits := R.NewCow(R.PpnOf(e), R.FlagsOf(e) & !R.W);
      CowDecoded(R.PpnOf(e), R.FlagsOf(e) & !R.W);
      DropW(R.FlagsOf(e));
      SameImplements(t, R.MarkCow(t, v).value, pt, ps, v, bits, pt[Num(v) := C.Shared(pt[Num(v)])]);
    } else if R.MarkCow(t, v).Ok? {
      assert pt[Num(v) := C.Shared(pt[Num(v)])] == pt;
    }
  }

  lemma ResolveAlike(t: R.Table, pt: Pages, ps: set<C.Prefix>, v: R.Vpn, ppn: R.Ppn)
    requires Implements(t, pt, ps)
    ensures Alike(R.ResolveCow(t, v, ppn), FlatStep(pt, ps, |t.supply|, ResolveCow(v, ppn)))
  {
    hide R.FlatAt, R.InTree, R.ResolveCow, Num, R.New, R.Tree, R.Beside, R.PpnOf, R.FlagsOf, R.IsCow, R.ChangesOnly,
         PermOf, Frame, R.Writable, R.IsValid;
    var e := R.FlatAt(t, v);
    R.ResolveCowChangesOne(t, v, ppn);
    assert Agrees(t, pt, v);
    if R.ResolveCow(t, v, ppn).Ok? {
      var bits := R.New(ppn, R.FlagsOf(e) | R.W | R.V);
      PlainDecoded(ppn, R.FlagsOf(e) | R.W);
      SetW(R.FlagsOf(e));
      SameImplements(t, R.ResolveCow(t, v, ppn).value, pt, ps, v, bits,
        pt[Num(v) := C.Resolved(pt[Num(v)], Frame(ppn))]);
    }
  }

  lemma UnmapAlike(t: R.Table, pt: Pages, ps: set<C.Prefix>, v: R.Vpn)
    requires Implements(t, pt, ps)
    ensures Alike(R.Unmap(t, v), FlatStep(pt, ps, |t.supply|, Unmap(v)))
  {
    hide R.FlatAt, R.InTree, R.Unmap, Num, R.Tree, R.Beside, R.ChangesOnly, Decoded;
    R.UnmapChangesOne(t, v);
    R.ZeroIsInvalid();
    hide R.IsValid;
    assert Agrees(t, pt, v);
    if R.Unmap(t, v).Ok? { SameImplements(t, R.Unmap(t, v).value, pt, ps, v, 0, pt - {Num(v)}); }
  }

  // ----- whole runs -----

  function TreeRun(t: R.Table, ops: seq<TableOp>): Outcome<R.Table>
    decreases |ops|
  {
    if ops == [] then Ok(t)
    else
      var t1 :- TreeStep(t, ops[0]);
      TreeRun(t1, ops[1..])
  }

  ghost function FlatRun(pt: Pages, ps: set<C.Prefix>, free: nat, ops: seq<TableOp>)
    : Outcome<(Pages, set<C.Prefix>, nat)>
    decreases |ops|
  {
    if ops == [] then Ok((pt, ps, free))
    else
      var (pt1, ps1, free1) :- FlatStep(pt, ps, free, ops[0]);
      FlatRun(pt1, ps1, free1, ops[1..])
  }

  /** Over every run the tree does what the flat table does, to the same end. */
  lemma {:induction false} RunAlike(t: R.Table, pt: Pages, ps: set<C.Prefix>, ops: seq<TableOp>)
    requires Implements(t, pt, ps)
    ensures Alike(TreeRun(t, ops), FlatRun(pt, ps, |t.supply|, ops))
    decreases |ops|
  {
    hide Implements, TreeStep, FlatStep;
    if ops != [] {
      StepAlike(t, pt, ps, ops[0]);
      if TreeStep(t, ops[0]).Ok? {
        var (pt1, ps1, free1) := FlatStep(pt, ps, |t.supply|, ops[0]).value;
        RunAlike(TreeStep(t, ops[0]).value, pt1, ps1, ops[1..]);
      }
    }
  }

  /** A new table implements the empty map, with its root page. */
  lemma NewImplements(root: R.Ppn, mem: map<R.Ppn, R.TablePage>, supply: seq<R.Ppn>)
    requires root in mem && mem[root] == map[] && root !in supply
    requires forall i, j :: 0 <= i < j < |supply| ==> supply[i] != supply[j]
    ensures Implements(R.Table(root, mem, [root], supply), map[], {C.Root})
  {
    hide R.FlatAt, R.Tree, R.PpnOf, Num, Decoded, Num9;
    R.FreshTree(root, mem, supply);
    R.ZeroIsInvalid();
    hide R.IsValid;
    var t := R.Table(root, mem, [root], supply);
    forall x ensures R.InTree(t, x) <==> PrefixOf(x) in {C.Root} { assert forall i :: R.Entry(mem, root, i) == 0; }
  }

  // ----- the machine's page table is the flat table -----

  /** What `CopyOnWrite` does to the translations and table pages of a process, operation by operation. */
  lemma MapPteIsFlat(m: C.Machine, pid: nat, v: nat, e: C.Pte)
    requires F.Free(m) >= 0
    ensures match C.MapPte(m, pid, v, e)
            case Ok(m1) =>
              F.Free(m1) >= 0 ==>
                MapFlat(C.Pt(m, pid), F.Prefixes(m, pid), F.Free(m), v, e) ==
                Ok((C.Pt(m1, pid), F.Prefixes(m1, pid), F.Free(m1)))
            case OutOfMemory => v !in C.Pt(m, pid) ==>
                MapFlat(C.Pt(m, pid), F.Prefixes(m, pid), F.Free(m), v, e) == OutOfMemory
            case Panic => true
  {
    hide F.TableCost, F.WithTables, F.Prefixes, C.AddTables;
    F.MapPteFree(m, pid, v, e);
    F.AddTablesFree(m, pid, v);
  }

  lemma MarkIsFlat(m: C.Machine, pid: nat, v: R.Vpn)
    requires F.Free(m) >= 0
    ensures match C.MarkCow(m, pid, Num(v))
            case Ok(m1) =>
              F.Free(m1) == F.Free(m) &&
              FlatStep(C.Pt(m, pid), F.Prefixes(m, pid), F.Free(m), MarkCow(v)) ==
              Ok((C.Pt(m1, pid), F.Prefixes(m1, pid), F.Free(m1)))
            case OutOfMemory => false
            case Panic => FlatStep(C.Pt(m, pid), F.Prefixes(m, pid), F.Free(m), MarkCow(v)) == Panic
  {
    hide Num;
    if C.MarkCow(m, pid, Num(v)).Ok? {
      assert F.Prefixes(C.MarkCow(m, pid, Num(v)).value, pid) == F.Prefixes(m, pid);
    }
  }

  lemma ResolveIsFlat(m: C.Machine, pid: nat, v: R.Vpn, ppn: R.Ppn)
    requires pid in m.spaces && Num(v) in C.Pt(m, pid) && C.Pt(m, pid)[Num(v)].cow && F.Free(m) >= 0
    ensures var m1 := C.SetPte(m, pid, Num(v), C.Resolved(C.Pt(m, pid)[Num(v)], Frame(ppn)));
            F.Free(m1) == F.Free(m) &&
            FlatStep(C.Pt(m, pid), F.Prefixes(m, pid), F.Free(m), ResolveCow(v, ppn)) ==
            Ok((C.Pt(m1, pid), F.Prefixes(m1, pid), F.Free(m1)))
  {
    hide Num;
    var m1 := C.SetPte(m, pid, Num(v), C.Resolved(C.Pt(m, pid)[Num(v)], Frame(ppn)));
    assert F.Prefixes(m1, pid) == F.Prefixes(m, pid);
  }

  lemma UnmapIsFlat(m: C.Machine, pid: nat, a: C.Area, v: R.Vpn)
    requires F.Free(m) >= 0
    ensures match C.UnmapOne(m, pid, a, Num(v))
            case Ok(m1) =>
              FlatStep(C.Pt(m, pid), F.Prefixes(m, pid), F.Free(m), Unmap(v)) ==
              Ok((C.Pt(m1, pid), F.Prefixes(m1, pid), F.Free(m)))
            case OutOfMemory => false
            case Panic => true
  {
    hide Num;
    if C.UnmapOne(m, pid, a, Num(v)).Ok? {
      assert F.Prefixes(C.UnmapOne(m, pid, a, Num(v)).value, pid) == F.Prefixes(m, pid);
    }
  }
}
