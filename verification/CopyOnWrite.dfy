/**
 Copy-on-write address spaces (os/src/mm/memory_set.rs).  A `Machine` is the
 value of everything involved: allocator, physical memory, the translations
 and areas of every live process, and the frames of their page tables.  The
 functions below say what the kernel code does, with every assertion and
 `unwrap` of the source as an explicit `Panic`; module `MemorySet` performs
 them as loops over fields.  Translations are flat maps here; module
 `RadixTable` shows that the three-level tables implement them.
 */
module CopyOnWrite {
  import opened Wrappers
  import opened FrameAllocator
  import opened PM = PrivateMemory

  /** A valid leaf entry: frame, hardware permissions, and the software COW bit. */
  datatype Pte = Pte(ppn: nat, perm: Perm, cow: bool) {
    /** The permission its owner was promised: a COW page will be writable on demand. */
    function Visible(): Perm { perm.(w := perm.w || cow) }
  }

  /** `MapArea` of type Framed, with its `data_frames`. */
  datatype Area = Area(lo: nat, hi: nat, perm: Perm, frames: map<nat, nat>)
  datatype Space = Space(pt: map<nat, Pte>, areas: seq<Area>)

  /** A page-table page: the part of the tree it serves, and its frame. */
  datatype Prefix = Root | Mid(i: nat) | Low(i: nat, j: nat)
  datatype TableFrame = TableFrame(prefix: Prefix, ppn: nat)

  /** `tables[pid]` is `PageTable::frames`; it outlives the space until the process is reaped. */
  datatype Machine = Machine(
    frames: Frames,
    mem: seq<Page>,
    spaces: map<nat, Space>,
    tables: map<nat, seq<TableFrame>>,
    trk: Trackers)

  const TRAMPOLINE_VPN: nat := VPN_SPAN - 1

  type Spaces = map<nat, Space>

  function PtOf(spaces: Spaces, pid: nat): map<nat, Pte> {
    if pid in spaces then spaces[pid].pt else map[]
  }

  function Pt(m: Machine, pid: nat): map<nat, Pte> { PtOf(m.spaces, pid) }

  function TablesOf(tables: map<nat, seq<TableFrame>>, pid: nat): seq<TableFrame> {
    if pid in tables then tables[pid] else []
  }

  // ----- page-level operations -----

  /** `frame_alloc`, storing the tracker at `slot`; `FrameTracker::new` clears the frame. */
  function TakeFrame(m: Machine, slot: Slot): Outcome<(Machine, nat)> {
    var (p, f) :- m.frames.Alloc();
    if p >= |m.mem| then Panic
    else Ok((m.(frames := f, mem := m.mem[p := ZeroPage()], trk := m.trk[slot := p]), p))
  }

  /** Drop the tracker of frame `p` stored at `slot`. */
  function DropFrame(m: Machine, p: nat, slot: Slot): Outcome<Machine> {
    var f :- m.frames.Dealloc(p);
    Ok(m.(frames := f, trk := m.trk - {slot}))
  }

  predicate HasTable(ts: seq<TableFrame>, x: Prefix) {
    exists k :: 0 <= k < |ts| && ts[k].prefix == x
  }

  function AddTable(m: Machine, pid: nat, x: Prefix): Outcome<Machine> {
    var ts := TablesOf(m.tables, pid);
    if HasTable(ts, x) then Ok(m)
    else
      var (m1, p) :- TakeFrame(m, Table(pid, |ts|));
      Ok(m1.(tables := m1.tables[pid := ts + [TableFrame(x, p)]]))
  }

  /** The table pages that `find_pte_create` adds on the way to the leaf of `v`. */
  function AddTables(m: Machine, pid: nat, v: nat): Outcome<Machine> {
    var m1 :- AddTable(m, pid, Mid(v / 512 / 512));
    AddTable(m1, pid, Low(v / 512 / 512, v / 512 % 512))
  }

  function SetPte(m: Machine, pid: nat, v: nat, e: Pte): Machine
    requires pid in m.spaces
  {
    m.(spaces := m.spaces[pid := Space(m.spaces[pid].pt[v := e], m.spaces[pid].areas)])
  }

  /** `PageTable::map` and `map_cow`: the entry must not be valid yet. */
  function MapPte(m: Machine, pid: nat, v: nat, e: Pte): Outcome<Machine> {
    var m1 :- AddTables(m, pid, v);
    if pid !in m1.spaces || v in m1.spaces[pid].pt then Panic else Ok(SetPte(m1, pid, v, e))
  }

  /** `map_one` of a Framed area; the tracker goes to `data_frames`. */
  function MapOne(m: Machine, pid: nat, v: nat, perm: Perm): Outcome<(Machine, nat)> {
    var (m1, p) :- TakeFrame(m, Data(pid, v));
    var m2 :- MapPte(m1, pid, v, Pte(p, perm, false));
    Ok((m2, p))
  }

  /** `unmap_one`: drop the tracker, if `data_frames` has one, then clear an entry that must be valid. */
  function UnmapOne(m: Machine, pid: nat, a: Area, v: nat): Outcome<Machine> {
    var m1 :- if v in a.frames then DropFrame(m, a.frames[v], Data(pid, v)) else Ok(m);
    if pid !in m1.spaces || v !in m1.spaces[pid].pt then Panic
    else Ok(m1.(spaces := m1.spaces[pid := Space(m1.spaces[pid].pt - {v}, m1.spaces[pid].areas)]))
  }

  // ----- area-level operations -----

  /** `MapArea::map` from page `v` on. */
  function MapPages(m: Machine, pid: nat, a: Area, v: nat): Outcome<(Machine, Area)>
    decreases a.hi - v
  {
    if v >= a.hi then Ok((m, a))
    else
      var (m1, p) :- MapOne(m, pid, v, a.perm);
      MapPages(m1, pid, a.(frames := a.frames[v := p]), v + 1)
  }

  function SetAreas(m: Machine, pid: nat, areas: seq<Area>): Machine
    requires pid in m.spaces
  {
    m.(spaces := m.spaces[pid := Space(m.spaces[pid].pt, areas)])
  }

  function PushArea(m: Machine, pid: nat, a: Area): Machine
    requires pid in m.spaces
  {
    SetAreas(m, pid, m.spaces[pid].areas + [a])
  }

  /** `insert_framed_area`. */
  function InsertFramed(m: Machine, pid: nat, lo: nat, hi: nat, perm: Perm): Outcome<Machine> {
    var (m1, a) :- MapPages(m, pid, Area(lo, hi, perm, map[]), lo);
    if pid !in m1.spaces then Panic else Ok(PushArea(m1, pid, a))
  }

  /** `MapArea::unmap` from page `v` on. */
  function UnmapPages(m: Machine, pid: nat, a: Area, v: nat): Outcome<Machine>
    decreases a.hi - v
  {
    if v >= a.hi then Ok(m)
    else
      var m1 :- UnmapOne(m, pid, a, v);
      UnmapPages(m1, pid, a, v + 1)
  }

  /** `areas.remove(index)` and `area.unmap`. */
  function RemoveArea(m: Machine, pid: nat, i: nat): Outcome<Machine> {
    if pid !in m.spaces || i >= |m.spaces[pid].areas| then Panic
    else
      var areas := m.spaces[pid].areas;
      UnmapPages(SetAreas(m, pid, areas[..i] + areas[i + 1..]), pid, areas[i], areas[i].lo)
  }

  // ----- fork -----

  /** `new_bare` and `map_trampoline`. */
  function NewSpace(m: Machine, pid: nat): Outcome<Machine> {
    var (m1, p) :- TakeFrame(m, Table(pid, 0));
    var m2 := m1.(tables := m1.tables[pid := [TableFrame(Root, p)]], spaces := m1.spaces[pid := Space(map[], [])]);
    AddTables(m2, pid, TRAMPOLINE_VPN)
  }

  /** The entry both processes have after a fork of a user page: COW if it was writable. */
  function Shared(e: Pte): Pte {
    if e.perm.w || e.cow then Pte(e.ppn, e.perm.(w := false), true) else e
  }

  /** `mark_cow`: an already marked entry must not be writable. */
  function MarkCow(m: Machine, pid: nat, v: nat): Outcome<Machine> {
    if pid !in m.spaces || v !in m.spaces[pid].pt then Panic
    else
      var e := m.spaces[pid].pt[v];
      if e.cow == e.perm.w then Panic else Ok(SetPte(m, pid, v, Shared(e)))
  }

  /** A user page: clone the parent's tracker, mark the parent's entry, map the child's. */
  function SharePage(m: Machine, p: nat, c: nat, v: nat, n: nat): Outcome<Machine> {
    if v !in Pt(m, p) then Panic
    else
      var e := Pt(m, p)[v];
      var f :- m.frames.AddRef(n);
      var m1 := m.(frames := f, trk := m.trk[Data(c, v) := n]);
      var m2 :- if e.perm.w || e.cow then MarkCow(m1, p, v) else Ok(m1);
      MapPte(m2, c, v, Shared(e))
  }

  /** A kernel-only page: copied at once. */
  function CopyPage(m: Machine, p: nat, c: nat, v: nat, perm: Perm): Outcome<(Machine, nat)> {
    if v !in Pt(m, p) then Panic
    else
      var src := Pt(m, p)[v].ppn;
      var (m1, n) :- MapOne(m, c, v, perm);
      if src >= |m1.mem| || n >= |m1.mem| then Panic
      else Ok((m1.(mem := m1.mem[n := m1.mem[src]]), n))
  }

  /** The body of the inner loop of `from_existed_user_cow`: page `v` of the parent's area `a`; answers the child's
      frame. */
  function ForkPage(m: Machine, p: nat, c: nat, a: Area, v: nat): Outcome<(Machine, nat)> {
    if v !in Pt(m, p) then Panic
    else if Pt(m, p)[v].perm.u then
      if v !in a.frames then Panic
      else
        var m1 :- SharePage(m, p, c, v, a.frames[v]);
        Ok((m1, a.frames[v]))
    else CopyPage(m, p, c, v, a.perm)
  }

  /** The inner loop; `na` is the child's area under construction. */
  function ForkPages(m: Machine, p: nat, c: nat, a: Area, na: Area, v: nat): Outcome<(Machine, Area)>
    decreases a.hi - v
  {
    if v >= a.hi then Ok((m, na))
    else
      var (m1, n) :- ForkPage(m, p, c, a, v);
      ForkPages(m1, p, c, a, na.(frames := na.frames[v := n]), v + 1)
  }

  /** The outer loop, over the parent's areas from index `i` on. */
  function ForkAreas(m: Machine, p: nat, c: nat, areas: seq<Area>, i: nat): Outcome<Machine>
    decreases |areas| - i
  {
    if i >= |areas| then Ok(m)
    else
      var a := areas[i];
      var (m1, na) :- ForkPages(m, p, c, a, Area(a.lo, a.hi, a.perm, map[]), a.lo);
      if c !in m1.spaces then Panic else ForkAreas(PushArea(m1, c, na), p, c, areas, i + 1)
  }

  /** `from_existed_user_cow`. */
  function ForkSpace(m: Machine, p: nat, c: nat): Outcome<Machine>
    requires p in m.spaces
  {
    var m1 :- NewSpace(m, c);
    ForkAreas(m1, p, c, m.spaces[p].areas, 0)
  }

  // ----- write faults -----

  function FindArea(areas: seq<Area>, v: nat, i: nat): (r: Option<nat>)
    requires i <= |areas|
    ensures r.Some? ==> i <= r.value < |areas| && Between(areas[r.value].lo, v, areas[r.value].hi)
    ensures r.None? ==> forall k :: i <= k < |areas| ==> !Between(areas[k].lo, v, areas[k].hi)
    decreases |areas| - i
  {
    if i == |areas| then None
    else if Between(areas[i].lo, v, areas[i].hi) then Some(i)
    else FindArea(areas, v, i + 1)
  }

  /** `resolve_cow`. */
  function Resolved(e: Pte, ppn: nat): Pte { Pte(ppn, e.perm.(w := true), false) }

  /** The slow path of `handle_cow_fault`: copy to a new frame, swap it into `data_frames`, drop the old tracker. */
  function CopyFault(m: Machine, pid: nat, v: nat): Outcome<(Machine, bool)> {
    if v !in Pt(m, pid) then Panic
    else
      var e := Pt(m, pid)[v];
      var (m1, n) :- TakeFrame(m, Local);
      if e.ppn >= |m1.mem| then Panic
      else
        var m2 := m1.(mem := m1.mem[n := m1.mem[e.ppn]]);
        var areas := m2.spaces[pid].areas;
        match FindArea(areas, v, 0)
        case None =>
          var m3 :- DropFrame(m2, n, Local);
          Ok((m3, false))
        case Some(i) =>
          if v !in areas[i].frames then Panic
          else
            var dropped := areas[i].frames[v];
            var areas' := areas[i := areas[i].(frames := areas[i].frames[v := n])];
            var m3 := SetAreas(m2, pid, areas').(trk := m2.trk[Data(pid, v) := n][Local := dropped]);
            var m4 :- DropFrame(SetPte(m3, pid, v, Resolved(e, n)), dropped, Local);
            Ok((m4, true))
  }

  /** `handle_cow_fault`. */
  function HandleCowFault(m: Machine, pid: nat, v: nat): Outcome<(Machine, bool)> {
    if v !in Pt(m, pid) then Ok((m, false))
    else
      var e := Pt(m, pid)[v];
      if !e.perm.u || !e.cow then Ok((m, false))
      else if e.ppn in m.frames.refCounts && m.frames.refCounts[e.ppn] == 1 then
        Ok((SetPte(m, pid, v, Resolved(e, e.ppn)), true))
      else CopyFault(m, pid, v)
  }

  /** The loop of `ensure_private_range`. */
  function EnsurePages(m: Machine, pid: nat, v: nat, end: nat): Outcome<(Machine, bool)>
    decreases end - v
  {
    if v >= end then Ok((m, true))
    else if v !in Pt(m, pid) || !Pt(m, pid)[v].perm.u then Ok((m, false))
    else if Pt(m, pid)[v].cow then
      var (m1, done) :- HandleCowFault(m, pid, v);
      if done then EnsurePages(m1, pid, v + 1, end) else Ok((m1, false))
    else if !Pt(m, pid)[v].perm.w then Ok((m, false))
    else EnsurePages(m, pid, v + 1, end)
  }

  function EnsurePrivateRange(m: Machine, pid: nat, va: nat, len: nat): Outcome<(Machine, bool)> {
    if len == 0 then Ok((m, true))
    else if Extend(va) + len > USIZE_MAX then Ok((m, false))
    else EnsurePages(m, pid, va / PAGE_SIZE, CeilVpn(Extend(va) + len))
  }

  /** The hardware's check on a user store. */
  predicate StoreAllowed(m: Machine, pid: nat, v: nat) {
    v in Pt(m, pid) && Pt(m, pid)[v].perm.u && Pt(m, pid)[v].perm.r && Pt(m, pid)[v].perm.w
  }

  function Poke(m: Machine, p: nat, off: nat, b: Byte): Outcome<Machine> {
    if p >= |m.mem| || off >= |m.mem[p]| then Panic else Ok(m.(mem := m.mem[p := m.mem[p][off := b]]))
  }

  /** A user store: on a fault the handler runs and the instruction is retried. */
  function StoreByte(m: Machine, pid: nat, v: nat, off: nat, b: Byte): Outcome<(Machine, Out)> {
    if off >= PAGE_SIZE then Ok((m, Fault))
    else if StoreAllowed(m, pid, v) then
      var m1 :- Poke(m, Pt(m, pid)[v].ppn, off, b);
      Ok((m1, Done))
    else
      var (m1, handled) :- HandleCowFault(m, pid, v);
      if handled && StoreAllowed(m1, pid, v) then
        var m2 :- Poke(m1, Pt(m1, pid)[v].ppn, off, b);
        Ok((m2, Done))
      else Ok((m1, Fault))
  }

  // ----- process-level operations -----

  /** Dropping the areas from index `i` on; the translations die with the space. */
  function ClearAreas(m: Machine, pid: nat, areas: seq<Area>, i: nat): Outcome<Machine>
    decreases |areas| - i
  {
    if i >= |areas| then Ok(m)
    else
      var m1 :- UnmapPages(m, pid, areas[i], areas[i].lo);
      ClearAreas(m1, pid, areas, i + 1)
  }

  /** `recycle_data_pages`; the space is dead afterwards. */
  function ExitSpace(m: Machine, pid: nat): Outcome<Machine>
    requires pid in m.spaces
  {
    var m1 :- ClearAreas(m, pid, m.spaces[pid].areas, 0);
    Ok(m1.(spaces := m1.spaces - {pid}))
  }

  function DropTables(m: Machine, pid: nat, ts: seq<TableFrame>, k: nat): Outcome<Machine>
    decreases |ts| - k
  {
    if k >= |ts| then Ok(m)
    else
      var m1 :- DropFrame(m, ts[k].ppn, Table(pid, k));
      DropTables(m1, pid, ts, k + 1)
  }

  /** Dropping the page table of a reaped process. */
  function ReapTables(m: Machine, pid: nat): Outcome<Machine> {
    DropTables(m.(tables := m.tables - {pid}), pid, TablesOf(m.tables, pid), 0)
  }

  function Ranges(areas: seq<Area>): (r: seq<Range>)
    ensures |r| == |areas| && forall i :: 0 <= i < |r| ==> r[i] == Range(areas[i].lo, areas[i].hi, areas[i].perm)
  {
    seq(|areas|, i requires 0 <= i < |areas| => Range(areas[i].lo, areas[i].hi, areas[i].perm))
  }

  function MmapSpace(m: Machine, pid: nat, start: nat, len: nat, prot: nat): Outcome<(Machine, Option<nat>)>
    requires pid in m.spaces
  {
    match Placement(Ranges(m.spaces[pid].areas), start, len, prot)
    case None => Ok((m, None))
    case Some(a) =>
      var m1 :- InsertFramed(m, pid, a / PAGE_SIZE, (a + RoundUp(len)) / PAGE_SIZE, ProtPerm(prot));
      Ok((m1, Some(a)))
  }

  function MunmapSpace(m: Machine, pid: nat, start: nat, len: nat): Outcome<(Machine, bool)>
    requires pid in m.spaces
  {
    match MunmapTarget(Ranges(m.spaces[pid].areas), start, len)
    case None => Ok((m, false))
    case Some(i) =>
      var m1 :- RemoveArea(m, pid, i);
      Ok((m1, true))
  }

  /** Steps on an existing address space. */
  function SpaceOp(m: Machine, op: Op): Outcome<(Machine, Out)>
    requires op.pid in m.spaces
  {
    match op
    case InsertArea(pid, lo, hi, perm) =>
      if !Insertable(Ranges(m.spaces[pid].areas), lo, hi) then Ok((m, Refused))
      else
        var m1 :- InsertFramed(m, pid, lo, hi, perm);
        Ok((m1, Done))
    case Load(pid, v, off) =>
      if v in Pt(m, pid) && Pt(m, pid)[v].perm.u && Pt(m, pid)[v].perm.r && off < PAGE_SIZE then
        var p := Pt(m, pid)[v].ppn;
        if p >= |m.mem| || off >= |m.mem[p]| then Panic else Ok((m, Value(m.mem[p][off])))
      else Ok((m, Fault))
    case Store(pid, v, off, b) => StoreByte(m, pid, v, off, b)
    case Mmap(pid, start, len, prot) =>
      var (m1, a) :- MmapSpace(m, pid, start, len, prot);
      Ok((m1, Address(a)))
    case Munmap(pid, start, len) =>
      var (m1, b) :- MunmapSpace(m, pid, start, len);
      Ok((m1, Answer(b)))
    case EnsurePrivate(pid, va, len) =>
      var (m1, b) :- EnsurePrivateRange(m, pid, va, len);
      Ok((m1, Answer(b)))
    case _ => Ok((m, Refused))
  }

  /** One kernel step. */
  function Step(m: Machine, op: Op): Outcome<(Machine, Out)> {
    match op
    case Spawn(pid) =>
      if pid in m.tables then Ok((m, Refused))
      else
        var m1 :- NewSpace(m, pid);
        Ok((m1, Done))
    case Fork(pid, child) =>
      if pid !in m.spaces || child in m.tables then Ok((m, Refused))
      else
        var m1 :- ForkSpace(m, pid, child);
        Ok((m1, Done))
    case Exit(pid) =>
      if pid !in m.spaces then Ok((m, Refused))
      else
        var m1 :- ExitSpace(m, pid);
        Ok((m1, Done))
    case Reap(pid) =>
      if pid !in m.tables || pid in m.spaces then Ok((m, Refused))
      else
        var m1 :- ReapTables(m, pid);
        Ok((m1, Done))
    case _ => if op.pid !in m.spaces then Ok((m, Refused)) else SpaceOp(m, op)
  }
}
