/**
 The Sv39 page table (os/src/mm/page_table.rs, os/src/mm/address.rs): a tree
 of 512-entry pages that implements a flat map from 27-bit virtual page
 numbers to 64-bit entries.  Entries follow section 4.4 of the RISC-V
 Privileged Architecture v1.12; bit 8 (RSW) is the kernel's COW mark.
 */
module RadixTable {
  import opened Wrappers

  /** `PhysPageNum`: 44 bits. */
  datatype Ppn = Ppn(n: bv44)
  /** An index into a page-table page: 9 bits. */
  datatype Index = Index(n: bv9)
  type Vpn = bv27
  type Bits = bv64

  const V: bv8 := 1
  const W: bv8 := 4
  const PTE_COW: Bits := 0x100

  // ----- entries -----

  function New(ppn: Ppn, flags: bv8): Bits { ((ppn.n as Bits) << 10) | (flags as Bits) }
  function NewCow(ppn: Ppn, flags: bv8): Bits { ((ppn.n as Bits) << 10) | (flags as Bits) | PTE_COW }
  function PpnOf(e: Bits): Ppn { Ppn(((e >> 10) & 0xfff_ffff_ffff) as bv44) }
  function FlagsOf(e: Bits): bv8 { (e & 0xff) as bv8 }
  predicate IsValid(e: Bits) { FlagsOf(e) & V != 0 }
  predicate Writable(e: Bits) { FlagsOf(e) & W != 0 }
  predicate IsCow(e: Bits) { e & PTE_COW != 0 }

  /** The entry in bits: the frame number from bit 10 on, and below it `low`: flags in 0 to 7, the COW mark in 8. */
  predicate EntryIs(e: Bits, frame: bv44, low: bv64) { e >> 10 == frame as bv64 && e & 0x3ff == low }

  lemma EntryBits(ppn: Ppn, flags: bv8)
    ensures EntryIs(New(ppn, flags), ppn.n, flags as bv64)
    ensures EntryIs(NewCow(ppn, flags), ppn.n, (flags as bv64) | 0x100)
    ensures NewCow(ppn, flags) == New(ppn, flags) | 0x100
  {
    hide New, NewCow;
    HighBits(ppn, flags);
    LowBits(ppn, flags);
    assert NewCow(ppn, flags) == New(ppn, flags) | 0x100 by { CowBit(ppn, flags); }
  }

  lemma HighBits(ppn: Ppn, flags: bv8)
    ensures New(ppn, flags) >> 10 == ppn.n as bv64
    ensures NewCow(ppn, flags) >> 10 == ppn.n as bv64
  {
  }

  lemma LowBits(ppn: Ppn, flags: bv8)
    ensures New(ppn, flags) & 0x3ff == flags as bv64
    ensures NewCow(ppn, flags) & 0x3ff == (flags as bv64) | 0x100
  {
  }

  lemma CowBit(ppn: Ppn, flags: bv8)
    ensures NewCow(ppn, flags) == New(ppn, flags) | 0x100
  {
  }

  lemma MarkedBits(e: Bits)
    ensures EntryIs(NewCow(PpnOf(e), FlagsOf(e) & !W), PpnOf(e).n, (FlagsOf(e) & !0x4) as bv64 | 0x100)
  {
    hide New, NewCow, EntryIs, PpnOf, FlagsOf;
    EntryBits(PpnOf(e), FlagsOf(e) & !W);
  }

  lemma ResolvedBits(ppn: Ppn, e: Bits)
    ensures EntryIs(New(ppn, FlagsOf(e) | W | V), ppn.n, (FlagsOf(e) | 0x5) as bv64)
  {
    hide New, NewCow, EntryIs, PpnOf, FlagsOf;
    EntryBits(ppn, FlagsOf(e) | W | V);
    assert FlagsOf(e) | W | V == FlagsOf(e) | 0x5;
  }

  /** The accessors in bits, for any 64-bit entry. */
  lemma AccessorBits(e: Bits)
    ensures PpnOf(e).n as bv64 == (e >> 10) & 0xfff_ffff_ffff && FlagsOf(e) as bv64 == e & 0xff
    ensures IsValid(e) <==> e & 0x1 != 0
    ensures Writable(e) <==> e & 0x4 != 0
    ensures IsCow(e) <==> e & 0x100 != 0
  {
  }

  /** Frame, flags and COW mark survive the encoding, and the accessors keep them apart. */
  lemma EncodingRoundTrip(ppn: Ppn, flags: bv8)
    ensures PpnOf(New(ppn, flags)) == ppn && FlagsOf(New(ppn, flags)) == flags && !IsCow(New(ppn, flags))
    ensures PpnOf(NewCow(ppn, flags)) == ppn && FlagsOf(NewCow(ppn, flags)) == flags && IsCow(NewCow(ppn, flags))
  {
    hide New, NewCow, PpnOf, FlagsOf, IsCow;
    PpnSurvives(ppn, flags);
    FlagsSurvive(ppn, flags);
    CowSurvives(ppn, flags);
  }

  lemma PpnSurvives(ppn: Ppn, flags: bv8)
    ensures PpnOf(New(ppn, flags)) == ppn
    ensures PpnOf(NewCow(ppn, flags)) == ppn
  {
  }

  lemma FlagsSurvive(ppn: Ppn, flags: bv8)
    ensures FlagsOf(New(ppn, flags)) == flags
    ensures FlagsOf(NewCow(ppn, flags)) == flags
  {
  }

  lemma CowSurvives(ppn: Ppn, flags: bv8)
    ensures !IsCow(New(ppn, flags)) && IsCow(NewCow(ppn, flags))
  {
  }

  // ----- indexes -----

  function I0(v: Vpn): Index { Index((v >> 18) as bv9) }
  function I1(v: Vpn): Index { Index(((v >> 9) & 511) as bv9) }
  function I2(v: Vpn): Index { Index((v & 511) as bv9) }

  function Low9(v: Vpn): Index { Index((v & 511) as bv9) }
  function Shift9(v: Vpn): Vpn { v >> 9 }

  lemma IndexFacts(v: Vpn)
    ensures I2(v) == Low9(v) && I1(v) == Low9(Shift9(v)) && I0(v) == Low9(Shift9(Shift9(v)))
  {
  }

  /** The loop of `VirtPageNum::indexes`. */
  method Indexes(vpn: Vpn) returns (idx: seq<Index>)
    ensures idx == [I0(vpn), I1(vpn), I2(vpn)]
  {
    hide I0, I1, I2, Low9, Shift9;
    IndexFacts(vpn);
    idx := [Index(0), Index(0), Index(0)];
    var v := vpn;
    var i := 3;
    while i > 0
      invariant 0 <= i <= 3 && |idx| == 3
      invariant i == 3 ==> v == vpn
      invariant i == 2 ==> v == Shift9(vpn)
      invariant i == 1 ==> v == Shift9(Shift9(vpn))
      invariant i <= 2 ==> idx[2] == I2(vpn)
      invariant i <= 1 ==> idx[1] == I1(vpn)
      invariant i == 0 ==> idx[0] == I0(vpn)
    {
      i := i - 1;
      idx := idx[i := Low9(v)];
      v := Shift9(v);
    }
  }

  /** The three indexes determine the page number. */
  lemma IndexesInjective(a: Vpn, b: Vpn)
    requires I0(a) == I0(b) && I1(a) == I1(b) && I2(a) == I2(b)
    ensures a == b
  {
    Recompose(a);
    Recompose(b);
  }

  lemma Recompose(v: Vpn)
    ensures v == ((I0(v).n as Vpn) << 18) | ((I1(v).n as Vpn) << 9) | (I2(v).n as Vpn)
  {
  }

  // ----- the tree -----

  /** A page-table page; an index that was never written since the frame was cleared reads as zero. */
  type TablePage = map<Index, Bits>

  /** `PageTable`, the page-table pages it can reach, and the frames `frame_alloc` will hand out next. */
  datatype Table = Table(root: Ppn, mem: map<Ppn, TablePage>, frames: seq<Ppn>, supply: seq<Ppn>)

  function Entry(mem: map<Ppn, TablePage>, p: Ppn, i: Index): Bits {
    if p in mem && i in mem[p] then mem[p][i] else 0
  }

  function Write(mem: map<Ppn, TablePage>, p: Ppn, i: Index, e: Bits): map<Ppn, TablePage> {
    mem[p := (if p in mem then mem[p] else map[])[i := e]]
  }

  /** `find_pte` from level `k` on: the place of the leaf entry. */
  function Find(t: Table, p: Ppn, idx: seq<Index>, k: nat): Option<(Ppn, Index)>
    requires |idx| == 3 && k < 3
    decreases 3 - k
  {
    var e := Entry(t.mem, p, idx[k]);
    if k == 2 then Some((p, idx[2]))
    else if !IsValid(e) then None
    else Find(t, PpnOf(e), idx, k + 1)
  }

  /** `find_pte_create` from level `k` on. */
  function Create(t: Table, p: Ppn, idx: seq<Index>, k: nat): Outcome<(Table, (Ppn, Index))>
    requires |idx| == 3 && k < 3
    decreases 3 - k
  {
    var e := Entry(t.mem, p, idx[k]);
    if k == 2 then Ok((t, (p, idx[2])))
    else if IsValid(e) then Create(t, PpnOf(e), idx, k + 1)
    else if t.supply == [] then OutOfMemory
    else
      var t1 := AddPage(t, p, idx[k]);
      Create(t1, PpnOf(Entry(t1.mem, p, idx[k])), idx, k + 1)
  }

  /** A cleared frame hung under entry `i` of page `p`. */
  function AddPage(t: Table, p: Ppn, i: Index): Table
    requires t.supply != []
  {
    var f := t.supply[0];
    Table(t.root, Write(t.mem[f := map[]], p, i, New(f, V)), t.frames + [f], t.supply[1..])
  }

  function Path(v: Vpn): seq<Index> { [I0(v), I1(v), I2(v)] }

  /** `translate`. */
  function Translate(t: Table, v: Vpn): Option<Bits> {
    match Find(t, t.root, Path(v), 0)
    case None => None
    case Some((p, i)) => Some(Entry(t.mem, p, i))
  }

  /** The flat map the tree stands for; zero is the empty entry. */
  function FlatAt(t: Table, v: Vpn): Bits {
    match Translate(t, v)
    case None => 0
    case Some(e) => e
  }

  // ----- the operations -----

  function SetLeaf(t: Table, place: (Ppn, Index), e: Bits): Table {
    t.(mem := Write(t.mem, place.0, place.1, e))
  }

  /** `map`. */
  function Map(t: Table, v: Vpn, ppn: Ppn, flags: bv8): Outcome<Table> {
    var (t1, place) :- Create(t, t.root, Path(v), 0);
    if IsValid(Entry(t1.mem, place.0, place.1)) then Panic else Ok(SetLeaf(t1, place, New(ppn, flags | V)))
  }

  /** `map_cow`. */
  function MapCow(t: Table, v: Vpn, ppn: Ppn, flags: bv8): Outcome<Table> {
    var (t1, place) :- Create(t, t.root, Path(v), 0);
    if IsValid(Entry(t1.mem, place.0, place.1)) then Panic
    else Ok(SetLeaf(t1, place, NewCow(ppn, (flags & !W) | V)))
  }

  /** `mark_cow`. */
  function MarkCow(t: Table, v: Vpn): Outcome<Table> {
    match Find(t, t.root, Path(v), 0)
    case None => Panic
    case Some((p, i)) =>
      var e := Entry(t.mem, p, i);
      if !IsValid(e) then Panic
      else if IsCow(e) then (if Writable(e) then Panic else Ok(t))
      else if !Writable(e) then Panic
      else Ok(SetLeaf(t, (p, i), NewCow(PpnOf(e), FlagsOf(e) & !W)))
  }

  /** `resolve_cow`. */
  function ResolveCow(t: Table, v: Vpn, ppn: Ppn): Outcome<Table> {
    match Find(t, t.root, Path(v), 0)
    case None => Panic
    case Some((p, i)) =>
      var e := Entry(t.mem, p, i);
      if !IsValid(e) || !IsCow(e) then Panic
      else Ok(SetLeaf(t, (p, i), New(ppn, FlagsOf(e) | W | V)))
  }

  /** `unmap`. */
  function Unmap(t: Table, v: Vpn): Outcome<Table> {
    match Find(t, t.root, Path(v), 0)
    case None => Panic
    case Some((p, i)) => if !IsValid(Entry(t.mem, p, i)) then Panic else Ok(SetLeaf(t, (p, i), 0))
  }

  // ----- the tree invariant -----

  datatype TreePath = Root | Mid(i: Index) | Low(i: Index, j: Index)

  /** `tabs` names the frame of every table page: distinct frames, linked exactly by the valid entries, all held by
      `frames`, none about to be handed out. */
  ghost predicate TreeOk(t: Table, tabs: map<TreePath, Ppn>) {
    Linked(t.root, t.mem, tabs) && Separate(t, tabs)
  }

  ghost predicate Linked(root: Ppn, mem: map<Ppn, TablePage>, tabs: map<TreePath, Ppn>) {
    && Root in tabs && tabs[Root] == root
    && (forall i :: Mid(i) in tabs <==> IsValid(Entry(mem, root, i)))
    && (forall i :: Mid(i) in tabs ==> tabs[Mid(i)] == PpnOf(Entry(mem, root, i)))
    && (forall i, j :: Low(i, j) in tabs <==> Mid(i) in tabs && IsValid(Entry(mem, tabs[Mid(i)], j)))
    && (forall i, j :: Low(i, j) in tabs ==> tabs[Low(i, j)] == PpnOf(Entry(mem, tabs[Mid(i)], j)))
  }

  ghost predicate Separate(t: Table, tabs: map<TreePath, Ppn>) {
    && (forall x, y :: x in tabs && y in tabs && tabs[x] == tabs[y] ==> x == y)
    && (forall x :: x in tabs ==> tabs[x] in t.frames && tabs[x] !in t.supply)
    && |t.frames| == |tabs|
    && (forall i, j :: 0 <= i < j < |t.supply| ==> t.supply[i] != t.supply[j])
  }

  /** Reading through the tree is reading the leaf page that `tabs` names. */
  lemma FlatBy(t: Table, tabs: map<TreePath, Ppn>, v: Vpn)
    requires Linked(t.root, t.mem, tabs)
    ensures Find(t, t.root, Path(v), 0) ==
            if Low(I0(v), I1(v)) in tabs then Some((tabs[Low(I0(v), I1(v))], I2(v))) else None
    ensures FlatAt(t, v) == if Low(I0(v), I1(v)) in tabs then Entry(t.mem, tabs[Low(I0(v), I1(v))], I2(v)) else 0
  {
    hide I0, I1, I2, IsValid, PpnOf, Entry;
    assert Mid(I0(v)) in tabs <==> IsValid(Entry(t.mem, t.root, I0(v)));
  }

  lemma EntryAfterWrite(mem: map<Ppn, TablePage>, p: Ppn, i: Index, e: Bits, q: Ppn, j: Index)
    ensures Entry(Write(mem, p, i, e), q, j) == if q == p && j == i then e else Entry(mem, q, j)
  {
    var page: TablePage := (if p in mem then mem[p] else map[])[i := e];
    var after := Write(mem, p, i, e);
    assert after[p] == page;
    if q == p {
      if j == i { assert page[j] == e; } else { assert j in page <==> p in mem && j in mem[p]; }
    } else {
      assert q in after <==> q in mem;
    }
  }

  /** What hanging a cleared frame under `(p, i)` does to entries. */
  lemma EntryAfterAdd(t: Table, p: Ppn, i: Index, q: Ppn, j: Index)
    requires t.supply != [] && p != t.supply[0]
    ensures Entry(AddPage(t, p, i).mem, q, j) ==
            if q == p && j == i then New(t.supply[0], V) else if q == t.supply[0] then 0 else Entry(t.mem, q, j)
  {
    hide New;
    EntryAfterWrite(t.mem[t.supply[0] := map[]], p, i, New(t.supply[0], V), q, j);
  }

  lemma ValidPointer(f: Ppn)
    ensures IsValid(New(f, V)) && PpnOf(New(f, V)) == f && !IsValid(0)
  {
    EncodingRoundTrip(f, V);
    assert V & V != 0;
  }

  lemma SeparateAfterAdd(t: Table, tabs: map<TreePath, Ppn>, p: Ppn, i: Index, x: TreePath)
    requires Separate(t, tabs) && t.supply != [] && x !in tabs
    ensures Separate(AddPage(t, p, i), tabs[x := t.supply[0]])
  {
    hide New, Write;
    var t1 := AddPage(t, p, i);
    assert forall q :: q in t1.supply ==> q in t.supply;
    assert t.supply[0] in t.supply && t.supply[0] in t1.frames && t.supply[0] !in t1.supply;
    assert forall q :: q in t.frames ==> q in t1.frames;
    assert tabs[x := t.supply[0]].Keys == tabs.Keys + {x};
  }

  /** A new middle page. */
  lemma MidAdded(t: Table, tabs: map<TreePath, Ppn>, i: Index)
    requires TreeOk(t, tabs) && t.supply != [] && Mid(i) !in tabs
    ensures Linked(t.root, AddPage(t, t.root, i).mem, tabs[Mid(i) := t.supply[0]])
  {
    hide New, PpnOf, IsValid, AddPage, Entry;
    var f := t.supply[0];
    assert f in t.supply && tabs[Root] != f;
    ValidPointer(f);
    var m1 := AddPage(t, t.root, i).mem;
    forall q, j ensures Entry(m1, q, j) == if q == t.root && j == i then New(f, V) else if q == f then 0
        else Entry(t.mem, q, j) {
      EntryAfterAdd(t, t.root, i, q, j);
    }
    assert forall x :: x in tabs ==> tabs[x] != f;
    assert forall k :: Mid(k) in tabs ==> tabs[Mid(k)] != t.root;
  }

  /** A new leaf page. */
  lemma LowAdded(t: Table, tabs: map<TreePath, Ppn>, i: Index, j: Index)
    requires TreeOk(t, tabs) && t.supply != [] && Mid(i) in tabs && Low(i, j) !in tabs
    ensures Linked(t.root, AddPage(t, tabs[Mid(i)], j).mem, tabs[Low(i, j) := t.supply[0]])
  {
    hide New, PpnOf, IsValid, AddPage, Entry;
    var f, p := t.supply[0], tabs[Mid(i)];
    assert f in t.supply && p != f;
    ValidPointer(f);
    var m1 := AddPage(t, p, j).mem;
    forall q, k ensures Entry(m1, q, k) == if q == p && k == j then New(f, V) else if q == f then 0
        else Entry(t.mem, q, k) {
      EntryAfterAdd(t, p, j, q, k);
    }
    assert forall x :: x in tabs ==> tabs[x] != f;
    assert p != t.root;
    assert forall k :: Mid(k) in tabs && k != i ==> tabs[Mid(k)] != p;
  }

  /** The flat map is untouched: the new page is empty and every other entry is where it was. */
  lemma FlatAfterAdd(t: Table, tabs: map<TreePath, Ppn>, p: Ppn, i: Index, x: TreePath, v: Vpn)
    requires TreeOk(t, tabs) && t.supply != [] && x !in tabs && x != Root && p != t.supply[0]
    requires Linked(t.root, AddPage(t, p, i).mem, tabs[x := t.supply[0]])
    requires p == t.root || exists k :: Mid(k) in tabs && tabs[Mid(k)] == p
    ensures FlatAt(AddPage(t, p, i), v) == FlatAt(t, v)
  {
    hide New, PpnOf, IsValid, AddPage, Entry, FlatAt, Linked;
    var t1, l := AddPage(t, p, i), Low(I0(v), I1(v));
    AddPageRoot(t, p, i);
    FlatBy(t, tabs, v);
    FlatBy(t1, tabs[x := t.supply[0]], v);
    RootIn(t, tabs);
    if l in tabs {
      EntryAfterAdd(t, p, i, tabs[l], I2(v));
      assert tabs[l] != p && tabs[l] != t.supply[0];
    } else if l == x {
      EntryAfterAdd(t, p, i, t.supply[0], I2(v));
    }
  }

  lemma AddPageRoot(t: Table, p: Ppn, i: Index)
    requires t.supply != []
    ensures AddPage(t, p, i).root == t.root
  {
  }

  lemma RootIn(t: Table, tabs: map<TreePath, Ppn>)
    requires TreeOk(t, tabs)
    ensures Root in tabs && tabs[Root] == t.root
    ensures (t.supply != [] ==> forall x :: x in tabs ==> tabs[x] != t.supply[0])
  {
    assert t.supply != [] ==> t.supply[0] in t.supply;
  }

  // ----- walking down and creating what is missing -----

  /** Pages outside the table's own frames keep their entries. */
  ghost predicate Beside(t: Table, t1: Table) {
    forall q, j :: q !in t1.frames ==> Entry(t1.mem, q, j) == Entry(t.mem, q, j)
  }

  ghost predicate SameFlat(t: Table, t1: Table) {
    && t1.root == t.root && Beside(t, t1) && (forall q :: q in t.frames ==> q in t1.frames)
    && forall v :: FlatAt(t1, v) == FlatAt(t, v)
  }

  lemma BesideAdd(t: Table, p: Ppn, i: Index)
    requires t.supply != [] && p in t.frames && p != t.supply[0]
    ensures Beside(t, AddPage(t, p, i)) && (forall q :: q in t.frames ==> q in AddPage(t, p, i).frames)
  {
    hide New, Entry;
    var t1 := AddPage(t, p, i);
    assert t.supply[0] in t1.frames;
    forall q, j | q !in t1.frames ensures Entry(t1.mem, q, j) == Entry(t.mem, q, j) {
      EntryAfterAdd(t, p, i, q, j);
    }
  }

  /** The middle page for `i` exists after the first step of the walk. */
  lemma MidReady(t: Table, tabs: map<TreePath, Ppn>, i: Index) returns (t1: Table, tabs1: map<TreePath, Ppn>)
    requires TreeOk(t, tabs) && (Mid(i) in tabs || t.supply != [])
    ensures t1 == if Mid(i) in tabs then t else AddPage(t, t.root, i)
    ensures TreeOk(t1, tabs1) && Mid(i) in tabs1 && SameFlat(t, t1)
    ensures Mid(i) !in tabs ==> tabs1[Mid(i)] == t.supply[0] && forall j :: Low(i, j) !in tabs1
    ensures Grew(tabs, tabs1, {Mid(i)})
    ensures Mid(i) in tabs ==> tabs1 == tabs
  {
    hide New, PpnOf, IsValid, AddPage, Entry, FlatAt;
    if Mid(i) in tabs {
      t1, tabs1 := t, tabs;
    } else {
      t1, tabs1 := AddPage(t, t.root, i), tabs[Mid(i) := t.supply[0]];
      RootIn(t, tabs);
      MidAdded(t, tabs, i);
      SeparateAfterAdd(t, tabs, t.root, i, Mid(i));
      AddPageRoot(t, t.root, i);
      BesideAdd(t, t.root, i);
      forall v ensures FlatAt(t1, v) == FlatAt(t, v) { FlatAfterAdd(t, tabs, t.root, i, Mid(i), v); }
    }
  }

  /** The leaf page for `(i, j)` exists after the second step. */
  lemma LowReady(t: Table, tabs: map<TreePath, Ppn>, i: Index, j: Index) returns (t1: Table, tabs1: map<TreePath, Ppn>)
    requires TreeOk(t, tabs) && Mid(i) in tabs && (Low(i, j) in tabs || t.supply != [])
    ensures t1 == if Low(i, j) in tabs then t else AddPage(t, tabs[Mid(i)], j)
    ensures TreeOk(t1, tabs1) && Low(i, j) in tabs1 && Mid(i) in tabs1 && tabs1[Mid(i)] == tabs[Mid(i)]
    ensures SameFlat(t, t1)
    ensures tabs1[Low(i, j)] == if Low(i, j) in tabs then tabs[Low(i, j)] else t.supply[0]
    ensures Grew(tabs, tabs1, {Low(i, j)})
  {
    hide New, PpnOf, IsValid, AddPage, Entry, FlatAt;
    if Low(i, j) in tabs {
      t1, tabs1 := t, tabs;
    } else {
      var p := tabs[Mid(i)];
      t1, tabs1 := AddPage(t, p, j), tabs[Low(i, j) := t.supply[0]];
      RootIn(t, tabs);
      LowAdded(t, tabs, i, j);
      SeparateAfterAdd(t, tabs, p, j, Low(i, j));
      AddPageRoot(t, p, j);
      BesideAdd(t, p, j);
      forall v ensures FlatAt(t1, v) == FlatAt(t, v) { FlatAfterAdd(t, tabs, p, j, Low(i, j), v); }
    }
  }

  /** How many table pages the walk to `v` has to create. */
  function Missing(t: Table, v: Vpn): nat {
    var e := Entry(t.mem, t.root, I0(v));
    if !IsValid(e) then 2 else if !IsValid(Entry(t.mem, PpnOf(e), I1(v))) then 1 else 0
  }

  lemma MissingBy(t: Table, tabs: map<TreePath, Ppn>, v: Vpn)
    requires TreeOk(t, tabs)
    ensures Missing(t, v) == if Mid(I0(v)) !in tabs then 2 else if Low(I0(v), I1(v)) !in tabs then 1 else 0
  {
    hide PpnOf, IsValid, Entry, I0, I1, Separate;
  }

  lemma CreateUnfolds(t: Table, p: Ppn, v: Vpn, k: nat)
    requires k < 2
    ensures var e := Entry(t.mem, p, Path(v)[k]);
            Create(t, p, Path(v), k) ==
              if IsValid(e) then Create(t, PpnOf(e), Path(v), k + 1)
              else if t.supply == [] then OutOfMemory
              else Create(AddPage(t, p, Path(v)[k]), t.supply[0], Path(v), k + 1)
  {
    hide IsValid, PpnOf, New, Entry, AddPage;
    if t.supply != [] {
      EntryAdded(t, p, Path(v)[k]);
    }
  }

  lemma EntryAdded(t: Table, p: Ppn, i: Index)
    requires t.supply != []
    ensures PpnOf(Entry(AddPage(t, p, i).mem, p, i)) == t.supply[0]
  {
    hide New, PpnOf;
    EntryAfterWrite(t.mem[t.supply[0] := map[]], p, i, New(t.supply[0], V), p, i);
    ValidPointer(t.supply[0]);
  }

  /** `find_pte_create` reaches the leaf of `v` without changing the flat map, and fails only for want of frames. */
  lemma CreateOk(t: Table, tabs: map<TreePath, Ppn>, v: Vpn) returns (t2: Table, tabs2: map<TreePath, Ppn>)
    requires TreeOk(t, tabs)
    ensures |t.supply| < Missing(t, v) ==> Create(t, t.root, Path(v), 0) == OutOfMemory
    ensures |t.supply| >= Missing(t, v) ==>
              && TreeOk(t2, tabs2) && Low(I0(v), I1(v)) in tabs2 && SameFlat(t, t2)
              && Create(t, t.root, Path(v), 0) == Ok((t2, (tabs2[Low(I0(v), I1(v))], I2(v))))
              && |t2.supply| == |t.supply| - Missing(t, v) && |t2.frames| == |t.frames| + Missing(t, v)
              && Grew(tabs, tabs2, {Mid(I0(v)), Low(I0(v), I1(v))})
  {
    hide New, PpnOf, IsValid, AddPage, Entry, FlatAt, I0, I1, I2, Missing, Create, Grew, SameFlat, TreeOk;
    MissingBy(t, tabs, v);
    t2, tabs2 := t, tabs;
    CreateFirst(t, tabs, v);
    if Mid(I0(v)) in tabs || t.supply != [] {
      var t1, tabs1 := MidReady(t, tabs, I0(v));
      CreateSecond(t1, tabs1, v);
      Grown(t, t.root, I0(v));
      if Low(I0(v), I1(v)) in tabs1 || t1.supply != [] {
        t2, tabs2 := LowReady(t1, tabs1, I0(v), I1(v));
        Grown(t1, tabs1[Mid(I0(v))], I1(v));
        SameFlatTrans(t, t1, t2);
        GrewTwice(tabs, tabs1, tabs2, Mid(I0(v)), Low(I0(v), I1(v)));
      }
    }
  }

  ghost predicate Grew(tabs: map<TreePath, Ppn>, tabs1: map<TreePath, Ppn>, xs: set<TreePath>) {
    tabs1.Keys == tabs.Keys + xs
  }

  lemma GrewTwice(tabs: map<TreePath, Ppn>, tabs1: map<TreePath, Ppn>, tabs2: map<TreePath, Ppn>, x: TreePath,
                  y: TreePath)
    requires Grew(tabs, tabs1, {x}) && Grew(tabs1, tabs2, {y})
    ensures Grew(tabs, tabs2, {x, y})
  {
  }

  lemma SameFlatTrans(t: Table, t1: Table, t2: Table)
    requires SameFlat(t, t1) && SameFlat(t1, t2)
    ensures SameFlat(t, t2)
  {
    hide Entry, FlatAt;
  }

  lemma Grown(t: Table, p: Ppn, i: Index)
    ensures t.supply != [] ==>
              |AddPage(t, p, i).supply| == |t.supply| - 1 && |AddPage(t, p, i).frames| == |t.frames| + 1
  {
  }

  lemma CreateFirst(t: Table, tabs: map<TreePath, Ppn>, v: Vpn)
    requires TreeOk(t, tabs)
    ensures Mid(I0(v)) !in tabs && t.supply == [] ==> Create(t, t.root, Path(v), 0) == OutOfMemory
    ensures Mid(I0(v)) !in tabs && t.supply != [] ==>
              Create(t, t.root, Path(v), 0) == Create(AddPage(t, t.root, I0(v)), t.supply[0], Path(v), 1)
    ensures Mid(I0(v)) in tabs ==> Create(t, t.root, Path(v), 0) == Create(t, tabs[Mid(I0(v))], Path(v), 1)
  {
    hide IsValid, PpnOf, Entry, AddPage, I0, I1, I2, Create;
    CreateUnfolds(t, t.root, v, 0);
  }

  lemma CreateSecond(t: Table, tabs: map<TreePath, Ppn>, v: Vpn)
    requires TreeOk(t, tabs) && Mid(I0(v)) in tabs
    ensures var p, l := tabs[Mid(I0(v))], Low(I0(v), I1(v));
            && (l !in tabs && t.supply == [] ==> Create(t, p, Path(v), 1) == OutOfMemory)
            && (l !in tabs && t.supply != [] ==>
                 Create(t, p, Path(v), 1) == Ok((AddPage(t, p, I1(v)), (t.supply[0], I2(v)))))
            && (l in tabs ==> Create(t, p, Path(v), 1) == Ok((t, (tabs[l], I2(v)))))
  {
    hide IsValid, PpnOf, Entry, AddPage, I0, I1, I2, Create;
    var p := tabs[Mid(I0(v))];
    CreateUnfolds(t, p, v, 1);
    forall u: Table, q: Ppn ensures Create(u, q, Path(v), 2) == Ok((u, (q, I2(v)))) { CreateLast(u, q, v); }
  }

  lemma CreateLast(t: Table, p: Ppn, v: Vpn)
    ensures Create(t, p, Path(v), 2) == Ok((t, (p, I2(v))))
  {
  }

  // ----- the table pages there are -----

  /** The tree has a page for `x`. */
  predicate InTree(t: Table, x: TreePath) {
    match x
    case Root => true
    case Mid(i) => IsValid(Entry(t.mem, t.root, i))
    case Low(i, j) =>
      var e := Entry(t.mem, t.root, i);
      IsValid(e) && IsValid(Entry(t.mem, PpnOf(e), j))
  }

  lemma InTreeBy(t: Table, tabs: map<TreePath, Ppn>, x: TreePath)
    requires TreeOk(t, tabs)
    ensures InTree(t, x) <==> x in tabs
  {
    hide IsValid, PpnOf, Entry, Separate;
  }

  /** The pages on the way to `v` are there, and no others are new. */
  ghost predicate PagesAdded(t: Table, t1: Table, v: Vpn) {
    forall x :: InTree(t1, x) <==> InTree(t, x) || x == Mid(I0(v)) || x == Low(I0(v), I1(v))
  }

  ghost predicate SamePages(t: Table, t1: Table) { forall x :: InTree(t1, x) <==> InTree(t, x) }

  lemma PagesBy(t: Table, tabs: map<TreePath, Ppn>, t1: Table, tabs1: map<TreePath, Ppn>, v: Vpn)
    requires TreeOk(t, tabs) && TreeOk(t1, tabs1)
    ensures Grew(tabs, tabs1, {Mid(I0(v)), Low(I0(v), I1(v))}) ==> PagesAdded(t, t1, v)
    ensures tabs1 == tabs ==> SamePages(t, t1)
  {
    hide InTree, TreeOk, I0, I1;
    forall x ensures InTree(t, x) <==> x in tabs { InTreeBy(t, tabs, x); }
    forall x ensures InTree(t1, x) <==> x in tabs1 { InTreeBy(t1, tabs1, x); }
  }

  // ----- each operation changes one entry of the flat map -----

  ghost predicate Tree(t: Table) { exists tabs :: TreeOk(t, tabs) }

  /** The flat map changes at `v` only, the tree stays a tree, other frames are untouched. */
  ghost predicate ChangesOnly(t: Table, t1: Table, v: Vpn, e: Bits) {
    && Tree(t1) && t1.root == t.root && Beside(t, t1)
    && forall w :: FlatAt(t1, w) == if w == v then e else FlatAt(t, w)
  }

  /** Writing the leaf entry of `v`. */
  lemma LeafWritten(t: Table, tabs: map<TreePath, Ppn>, v: Vpn, e: Bits)
    requires TreeOk(t, tabs) && Low(I0(v), I1(v)) in tabs
    ensures ChangesOnly(t, SetLeaf(t, (tabs[Low(I0(v), I1(v))], I2(v)), e), v, e)
    ensures TreeOk(SetLeaf(t, (tabs[Low(I0(v), I1(v))], I2(v)), e), tabs)
    ensures FlatAt(t, v) == Entry(t.mem, tabs[Low(I0(v), I1(v))], I2(v))
  {
    hide IsValid, PpnOf, Entry, I0, I1, I2, FlatAt, Write;
    var p := tabs[Low(I0(v), I1(v))];
    var t1 := SetLeaf(t, (p, I2(v)), e);
    forall q, j ensures Entry(t1.mem, q, j) == if q == p && j == I2(v) then e else Entry(t.mem, q, j) {
      EntryAfterWrite(t.mem, p, I2(v), e, q, j);
    }
    assert p in t.frames && p != t.root && forall i :: Mid(i) in tabs ==> tabs[Mid(i)] != p;
    LinkedKept(t, t1, tabs, p);
    assert TreeOk(t1, tabs);
    FlatBy(t, tabs, v);
    forall w ensures FlatAt(t1, w) == if w == v then e else FlatAt(t, w) {
      FlatBy(t, tabs, w);
      FlatBy(t1, tabs, w);
      if Low(I0(w), I1(w)) in tabs && tabs[Low(I0(w), I1(w))] == p && I2(w) == I2(v) {
        assert Low(I0(w), I1(w)) == Low(I0(v), I1(v));
        IndexesInjective(v, w);
      }
    }
  }

  lemma LinkedKept(t: Table, t1: Table, tabs: map<TreePath, Ppn>, p: Ppn)
    requires Linked(t.root, t.mem, tabs) && t1.root == t.root
    requires p != t.root && forall i :: Mid(i) in tabs ==> tabs[Mid(i)] != p
    requires forall q, j :: q != p ==> Entry(t1.mem, q, j) == Entry(t.mem, q, j)
    ensures Linked(t1.root, t1.mem, tabs)
  {
    hide IsValid, PpnOf, Entry;
  }

  lemma CreateThenWrite(t: Table, v: Vpn, e: Bits)
    requires Tree(t)
    ensures match Create(t, t.root, Path(v), 0)
            case OutOfMemory => |t.supply| < Missing(t, v) && FlatAt(t, v) == 0
            case Panic => false
            case Ok((t2, place)) =>
              && |t.supply| >= Missing(t, v) && |t2.frames| == |t.frames| + Missing(t, v)
              && Entry(t2.mem, place.0, place.1) == FlatAt(t, v) && ChangesOnly(t, SetLeaf(t2, place, e), v, e)
              && PagesAdded(t, SetLeaf(t2, place, e), v) && |t2.supply| == |t.supply| - Missing(t, v)
  {
    hide Linked, Separate, Entry, I0, I1, I2, FlatAt, Missing, Create, PagesAdded;
    var tabs :| TreeOk(t, tabs);
    var t2, tabs2 := CreateOk(t, tabs, v);
    MissingBy(t, tabs, v);
    FlatBy(t, tabs, v);
    if |t.supply| >= Missing(t, v) {
      LeafWritten(t2, tabs2, v, e);
      PagesBy(t, tabs, SetLeaf(t2, (tabs2[Low(I0(v), I1(v))], I2(v)), e), tabs2, v);
    } else {
      RootInLow(t, tabs, v);
    }
  }

  lemma RootInLow(t: Table, tabs: map<TreePath, Ppn>, v: Vpn)
    requires TreeOk(t, tabs)
    ensures Low(I0(v), I1(v)) in tabs ==> Mid(I0(v)) in tabs
  {
    hide IsValid, PpnOf, Entry, I0, I1, Separate;
  }

  lemma FindThenWrite(t: Table, v: Vpn, e: Bits)
    requires Tree(t)
    ensures match Find(t, t.root, Path(v), 0)
            case None => FlatAt(t, v) == 0
            case Some(place) =>
              && Entry(t.mem, place.0, place.1) == FlatAt(t, v)
              && ChangesOnly(t, SetLeaf(t, place, e), v, e) && SamePages(t, SetLeaf(t, place, e))
  {
    hide Linked, Separate, Entry, I0, I1, I2, FlatAt, Find, SamePages;
    var tabs :| TreeOk(t, tabs);
    FlatBy(t, tabs, v);
    if Low(I0(v), I1(v)) in tabs {
      LeafWritten(t, tabs, v, e);
      PagesBy(t, tabs, SetLeaf(t, (tabs[Low(I0(v), I1(v))], I2(v)), e), tabs, v);
    }
  }

  lemma ZeroIsInvalid()
    ensures !IsValid(0)
  {
  }

  /** `map` fills exactly the entry of `v`; it panics iff `v` was mapped, and lacks memory iff the tables it must
      create outnumber the free frames. */
  lemma MapChangesOne(t: Table, v: Vpn, ppn: Ppn, flags: bv8)
    requires Tree(t)
    ensures match Map(t, v, ppn, flags)
            case Panic => IsValid(FlatAt(t, v))
            case OutOfMemory => |t.supply| < Missing(t, v) && !IsValid(FlatAt(t, v))
            case Ok(t1) =>
              && !IsValid(FlatAt(t, v)) && Missing(t, v) <= |t.supply| && |t1.frames| == |t.frames| + Missing(t, v)
              && ChangesOnly(t, t1, v, New(ppn, flags | V)) && EntryIs(FlatAt(t1, v), ppn.n, (flags | 0x1) as bv64)
              && PagesAdded(t, t1, v) && |t1.supply| == |t.supply| - Missing(t, v)
  {
    EntryBits(ppn, flags | V);
    hide EntryIs, PagesAdded, Tree, Beside, IsValid, New, Entry, FlatAt, Missing, Create;
    CreateThenWrite(t, v, New(ppn, flags | V));
    ZeroIsInvalid();
  }

  /** `map_cow`: as `map`, with a read-only COW entry. */
  lemma MapCowChangesOne(t: Table, v: Vpn, ppn: Ppn, flags: bv8)
    requires Tree(t)
    ensures match MapCow(t, v, ppn, flags)
            case Panic => IsValid(FlatAt(t, v))
            case OutOfMemory => |t.supply| < Missing(t, v) && !IsValid(FlatAt(t, v))
            case Ok(t1) =>
              && !IsValid(FlatAt(t, v)) && Missing(t, v) <= |t.supply| && |t1.frames| == |t.frames| + Missing(t, v)
              && ChangesOnly(t, t1, v, NewCow(ppn, (flags & !W) | V))
              && PpnOf(FlatAt(t1, v)) == ppn && IsCow(FlatAt(t1, v)) && !Writable(FlatAt(t1, v))
                  && IsValid(FlatAt(t1, v))
              && EntryIs(FlatAt(t1, v), ppn.n, ((flags & !0x4) | 0x1) as bv64 | 0x100)
              && PagesAdded(t, t1, v) && |t1.supply| == |t.supply| - Missing(t, v)
  {
    EntryBits(ppn, (flags & !W) | V);
    hide EntryIs, PagesAdded, Tree, IsValid, NewCow, Entry, FlatAt, Missing, Create, PpnOf, IsCow, Writable;
    CreateThenWrite(t, v, NewCow(ppn, (flags & !W) | V));
    ZeroIsInvalid();
    CowEntry(ppn, flags);
  }

  lemma CowEntry(ppn: Ppn, flags: bv8)
    ensures var e := NewCow(ppn, (flags & !W) | V);
            PpnOf(e) == ppn && IsCow(e) && !Writable(e) && IsValid(e)
  {
    hide NewCow, PpnOf, IsCow, FlagsOf;
    EncodingRoundTrip(ppn, (flags & !W) | V);
    assert ((flags & !W) | V) & W == 0 && ((flags & !W) | V) & V != 0;
  }

  /** `mark_cow` panics iff `v` is unmapped, is COW and writable, or is neither; it leaves a COW entry alone and
      otherwise trades W for COW at `v` only. */
  lemma MarkCowChangesOne(t: Table, v: Vpn)
    requires Tree(t)
    ensures var e := FlatAt(t, v);
            match MarkCow(t, v)
            case OutOfMemory => false
            case Panic => !IsValid(e) || (IsCow(e) <==> Writable(e))
            case Ok(t1) =>
              && IsValid(e) && (IsCow(e) <==> !Writable(e)) && t1.frames == t.frames
              && (IsCow(e) ==> t1 == t)
              && (!IsCow(e) ==> ChangesOnly(t, t1, v, NewCow(PpnOf(e), FlagsOf(e) & !W)))
              && (!IsCow(e) ==> EntryIs(FlatAt(t1, v), PpnOf(e).n, (FlagsOf(e) & !0x4) as bv64 | 0x100))
              && SamePages(t, t1) && t1.supply == t.supply
  {
    hide EntryIs, InTree, Tree, Beside, IsValid, NewCow, Entry, FlatAt, Find, IsCow, Writable, PpnOf, FlagsOf;
    var e := FlatAt(t, v);
    FindThenWrite(t, v, NewCow(PpnOf(e), FlagsOf(e) & !W));
    MarkedBits(e);
    ZeroIsInvalid();
  }

  /** `resolve_cow` panics iff `v` has no COW mapping; otherwise `v` becomes a plain writable mapping of `ppn`. */
  lemma ResolveCowChangesOne(t: Table, v: Vpn, ppn: Ppn)
    requires Tree(t)
    ensures var e := FlatAt(t, v);
            match ResolveCow(t, v, ppn)
            case OutOfMemory => false
            case Panic => !IsValid(e) || !IsCow(e)
            case Ok(t1) =>
              && IsValid(e) && IsCow(e) && t1.frames == t.frames
              && ChangesOnly(t, t1, v, New(ppn, FlagsOf(e) | W | V))
              && PpnOf(FlatAt(t1, v)) == ppn && !IsCow(FlatAt(t1, v)) && Writable(FlatAt(t1, v))
                  && IsValid(FlatAt(t1, v))
              && EntryIs(FlatAt(t1, v), ppn.n, (FlagsOf(e) | 0x5) as bv64)
              && SamePages(t, t1) && t1.supply == t.supply
  {
    hide EntryIs, SamePages, Tree, IsValid, New, Entry, FlatAt, Find, IsCow, Writable, PpnOf, FlagsOf;
    var e := FlatAt(t, v);
    FindThenWrite(t, v, New(ppn, FlagsOf(e) | W | V));
    ResolvedBits(ppn, e);
    ZeroIsInvalid();
    PlainEntry(ppn, FlagsOf(e));
  }

  lemma PlainEntry(ppn: Ppn, flags: bv8)
    ensures var e := New(ppn, flags | W | V);
            PpnOf(e) == ppn && !IsCow(e) && Writable(e) && IsValid(e)
  {
    hide New, PpnOf, IsCow, FlagsOf;
    EncodingRoundTrip(ppn, flags | W | V);
    assert (flags | W | V) & W != 0 && (flags | W | V) & V != 0;
  }

  /** `unmap` panics iff `v` is unmapped; otherwise it empties the entry of `v` only and keeps the table pages. */
  lemma UnmapChangesOne(t: Table, v: Vpn)
    requires Tree(t)
    ensures match Unmap(t, v)
            case OutOfMemory => false
            case Panic => !IsValid(FlatAt(t, v))
            case Ok(t1) =>
              && IsValid(FlatAt(t, v)) && t1.frames == t.frames && ChangesOnly(t, t1, v, 0)
              && SamePages(t, t1) && t1.supply == t.supply
  {
    hide SamePages, Tree, ChangesOnly, IsValid, Entry, FlatAt, Find;
    FindThenWrite(t, v, 0);
    ZeroIsInvalid();
  }

  /** Mapping and unmapping a page that had no entry restores every translation. */
  lemma UnmapUndoesMap(t: Table, v: Vpn, ppn: Ppn, flags: bv8)
    requires Tree(t) && FlatAt(t, v) == 0 && Map(t, v, ppn, flags).Ok?
    ensures var back := Unmap(Map(t, v, ppn, flags).value, v);
            back.Ok? && forall w :: FlatAt(back.value, w) == FlatAt(t, w)
  {
    hide Tree, IsValid, Entry, FlatAt, Map, Unmap, New, Beside;
    MapChangesOne(t, v, ppn, flags);
    var t1 := Map(t, v, ppn, flags).value;
    UnmapChangesOne(t1, v);
    ValidFlags(ppn, flags);
  }

  lemma ValidFlags(ppn: Ppn, flags: bv8)
    ensures IsValid(New(ppn, flags | V))
  {
    hide New, PpnOf, IsCow, FlagsOf;
    EncodingRoundTrip(ppn, flags | V);
    assert (flags | V) & V != 0;
  }

  /** Marking a writable page COW and resolving it in place gives back the entry it had. */
  lemma ResolveUndoesMark(t: Table, v: Vpn, ppn: Ppn, flags: bv8)
    requires Tree(t) && FlatAt(t, v) == New(ppn, flags | W | V)
    ensures var marked := MarkCow(t, v);
            marked.Ok? &&
            var back := ResolveCow(marked.value, v, ppn);
            back.Ok? && forall w :: FlatAt(back.value, w) == FlatAt(t, w)
  {
    hide Tree, IsValid, Entry, FlatAt, MarkCow, ResolveCow, New, NewCow, Beside, IsCow, Writable, FlagsOf, PpnOf;
    var e := FlatAt(t, v);
    PlainEntry(ppn, flags);
    EncodingRoundTrip(ppn, flags | W | V);
    MarkCowChangesOne(t, v);
    var t1 := MarkCow(t, v).value;
    var f := (flags | W | V) & !W;
    EncodingRoundTrip(ppn, f);
    assert f | W | V == flags | W | V && f == (f & !W) | V;
    CowEntry(ppn, f);
    ResolveCowChangesOne(t1, v, ppn);
  }

  /** `PageTable::new` on a cleared frame: a tree in which nothing is mapped. */
  lemma FreshTree(root: Ppn, mem: map<Ppn, TablePage>, supply: seq<Ppn>)
    requires root in mem && mem[root] == map[] && root !in supply
    requires forall i, j :: 0 <= i < j < |supply| ==> supply[i] != supply[j]
    ensures Tree(Table(root, mem, [root], supply)) && forall v :: FlatAt(Table(root, mem, [root], supply), v) == 0
  {
    hide IsValid, PpnOf, I0, I1, I2, FlatAt;
    var t := Table(root, mem, [root], supply);
    var tabs: map<TreePath, Ppn> := map[Root := root];
    ZeroIsInvalid();
    assert forall i :: Entry(mem, root, i) == 0;
    assert root in t.frames;
    assert TreeOk(t, tabs);
    forall v ensures FlatAt(t, v) == 0 { FlatBy(t, tabs, v); }
  }

  // ----- the table as the kernel updates it -----

  class PageTable {
    var root: Ppn
    var frames: seq<Ppn>
    /** The table pages in memory. */
    var mem: map<Ppn, TablePage>
    /** What `frame_alloc` will return. */
    var supply: seq<Ppn>

    ghost function State(): Table reads this { Table(root, mem, frames, supply) }

    /** `PageTable::new`; fails when there is no frame. */
    constructor (mem: map<Ppn, TablePage>, supply: seq<Ppn>)
      requires supply != [] && forall i, j :: 0 <= i < j < |supply| ==> supply[i] != supply[j]
      ensures Tree(State()) && forall v :: FlatAt(State(), v) == 0
      ensures State() == Table(supply[0], mem[supply[0] := map[]], [supply[0]], supply[1..])
    {
      root := supply[0];
      frames := [supply[0]];
      this.mem := mem[supply[0] := map[]];
      this.supply := supply[1..];
      new;
      FreshTree(root, this.mem, this.supply);
    }

    /** The loop of `find_pte`. */
    method FindPte(vpn: Vpn) returns (place: Option<(Ppn, Index)>)
      ensures place == Find(State(), root, Path(vpn), 0)
    {
      hide I0, I1, I2, IsValid, PpnOf, Entry;
      var idx := Indexes(vpn);
      var ppn := root;
      var i := 0;
      while i < 2
        invariant 0 <= i <= 2
        invariant Find(State(), root, Path(vpn), 0) == Find(State(), ppn, idx, i)
      {
        var pte := Entry(mem, ppn, idx[i]);
        if !IsValid(pte) { return None; }
        ppn := PpnOf(pte);
        i := i + 1;
      }
      place := Some((ppn, idx[2]));
    }

    /** The loop of `find_pte_create`. */
    method FindPteCreate(vpn: Vpn) returns (place: Option<(Ppn, Index)>)
      modifies this
      ensures match old(Create(State(), root, Path(vpn), 0))
              case Ok((t1, at)) => State() == t1 && place == Some(at)
              case OutOfMemory => place == None
              case Panic => false
    {
      hide I0, I1, I2, IsValid, PpnOf, Entry, Write, New;
      var idx := Indexes(vpn);
      var ppn := root;
      var i := 0;
      while i < 2
        invariant 0 <= i <= 2
        invariant old(Create(State(), root, Path(vpn), 0)) == Create(State(), ppn, idx, i)
      {
        if !IsValid(Entry(mem, ppn, idx[i])) {
          if supply == [] { return None; }
          var frame := supply[0];
          mem := Write(mem[frame := map[]], ppn, idx[i], New(frame, V));
          frames := frames + [frame];
          supply := supply[1..];
        }
        ppn := PpnOf(Entry(mem, ppn, idx[i]));
        i := i + 1;
      }
      place := Some((ppn, idx[2]));
    }

    /** `map`: `ok` is false where the kernel panics. */
    method MapPage(vpn: Vpn, ppn: Ppn, flags: bv8) returns (ok: bool)
      requires Tree(State())
      modifies this
      ensures ok == old(!IsValid(FlatAt(State(), vpn)) && Missing(State(), vpn) <= |supply|)
      ensures ok ==> ChangesOnly(old(State()), State(), vpn, New(ppn, flags | V))
    {
      hide Tree, ChangesOnly, IsValid, New, Entry, FlatAt, Missing, Create, Write;
      MapChangesOne(State(), vpn, ppn, flags);
      var place := FindPteCreate(vpn);
      if place == None { return false; }
      var (p, i) := place.value;
      if IsValid(Entry(mem, p, i)) { return false; }
      mem := Write(mem, p, i, New(ppn, flags | V));
      ok := true;
    }

    /** `map_cow`. */
    method MapPageCow(vpn: Vpn, ppn: Ppn, flags: bv8) returns (ok: bool)
      requires Tree(State())
      modifies this
      ensures ok == old(!IsValid(FlatAt(State(), vpn)) && Missing(State(), vpn) <= |supply|)
      ensures ok ==> ChangesOnly(old(State()), State(), vpn, NewCow(ppn, (flags & !W) | V))
    {
      hide Tree, ChangesOnly, IsValid, NewCow, Entry, FlatAt, Missing, Create, Write;
      MapCowChangesOne(State(), vpn, ppn, flags);
      var place := FindPteCreate(vpn);
      if place == None { return false; }
      var (p, i) := place.value;
      if IsValid(Entry(mem, p, i)) { return false; }
      mem := Write(mem, p, i, NewCow(ppn, (flags & !W) | V));
      ok := true;
    }

    /** `mark_cow`. */
    method MarkPageCow(vpn: Vpn) returns (ok: bool)
      modifies this`mem
      ensures ok == old(MarkCow(State(), vpn)).Ok?
      ensures ok ==> State() == old(MarkCow(State(), vpn)).value
    {
      hide IsValid, NewCow, Entry, FlatAt, Find, Write, IsCow, Writable, PpnOf, FlagsOf;
      var place := FindPte(vpn);
      if place == None { return false; }
      var (p, i) := place.value;
      var pte := Entry(mem, p, i);
      if !IsValid(pte) { return false; }
      if IsCow(pte) { return !Writable(pte); }
      if !Writable(pte) { return false; }
      mem := Write(mem, p, i, NewCow(PpnOf(pte), FlagsOf(pte) & !W));
      ok := true;
    }

    /** `resolve_cow`. */
    method ResolvePageCow(vpn: Vpn, ppn: Ppn) returns (ok: bool)
      requires Tree(State())
      modifies this`mem
      ensures var e := old(FlatAt(State(), vpn));
              && ok == (IsValid(e) && IsCow(e))
              && (ok ==> ChangesOnly(old(State()), State(), vpn, New(ppn, FlagsOf(e) | W | V)))
    {
      hide Tree, ChangesOnly, IsValid, New, Entry, FlatAt, Find, Write, IsCow, Writable, PpnOf, FlagsOf;
      ResolveCowChangesOne(State(), vpn, ppn);
      var place := FindPte(vpn);
      if place == None { return false; }
      var (p, i) := place.value;
      var pte := Entry(mem, p, i);
      if !IsValid(pte) || !IsCow(pte) { return false; }
      mem := Write(mem, p, i, New(ppn, FlagsOf(pte) | W | V));
      ok := true;
    }

    /** `unmap`. */
    method UnmapPage(vpn: Vpn) returns (ok: bool)
      requires Tree(State())
      modifies this`mem
      ensures ok == old(IsValid(FlatAt(State(), vpn)))
      ensures ok ==> ChangesOnly(old(State()), State(), vpn, 0)
    {
      hide Tree, ChangesOnly, IsValid, Entry, FlatAt, Find, Write;
      UnmapChangesOne(State(), vpn);
      var place := FindPte(vpn);
      if place == None { return false; }
      var (p, i) := place.value;
      if !IsValid(Entry(mem, p, i)) { return false; }
      mem := Write(mem, p, i, 0);
      ok := true;
    }
  }
}
