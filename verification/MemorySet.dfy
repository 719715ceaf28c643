/**
 The kernel's memory management as it runs: fields updated in place, loops
 over areas and pages (os/src/mm/memory_set.rs).  Every method does to the
 fields exactly what the function of module `CopyOnWrite` says, so the
 theorems of `CowRuns` speak about it.
 */
module MemorySet {
  import opened Wrappers
  import opened PM = PrivateMemory
  import Cow = CopyOnWrite
  import CowRuns
  import opened CowRefinement
  import opened FrameAllocator

  /** Result and new state are those of `spec`. */
  ghost predicate Does<T(!new)>(spec: Outcome<(Cow.Machine, T)>, r: Outcome<T>, m: Cow.Machine) {
    match spec
    case Ok((m1, t)) => r == Ok(t) && m == m1
    case OutOfMemory => r == OutOfMemory
    case Panic => r == Panic
  }

  ghost predicate Becomes(spec: Outcome<Cow.Machine>, r: Outcome<()>, m: Cow.Machine) {
    match spec
    case Ok(m1) => r == Ok(()) && m == m1
    case OutOfMemory => r == OutOfMemory
    case Panic => r == Panic
  }

  class Kernel {
    const frames: StackFrameAllocator
    var mem: seq<Page>
    var spaces: map<nat, Cow.Space>
    var tables: map<nat, seq<Cow.TableFrame>>
    ghost var trk: Trackers

    ghost function M(): Cow.Machine
      reads this, frames
    {
      Cow.Machine(frames.State(), mem, spaces, tables, trk)
    }

    constructor (l: nat, r: nat)
      requires l <= r
      ensures M() == CowRuns.Boot(l, r) && Inv(l, M()) && fresh(frames)
    {
      frames := new StackFrameAllocator(l, r);
      mem := seq(r, i => ZeroPage());
      spaces, tables, trk := map[], map[], map[];
      new;
      CowRuns.BootOk(l, r);
      assert mem == CowRuns.Boot(l, r).mem;
    }

    method TakeFrame(ghost slot: Slot) returns (r: Outcome<nat>)
      modifies this, frames
      ensures Does(Cow.TakeFrame(old(M()), slot), r, M())
    {
      var p :- frames.Alloc();
      if p >= |mem| { return Panic; }
      mem := mem[p := ZeroPage()];
      trk := trk[slot := p];
      return Ok(p);
    }

    /** Drop a tracker for frame `p` stored at `slot`. */
    method DropFrame(p: nat, ghost slot: Slot) returns (r: Outcome<()>)
      modifies this, frames
      ensures Becomes(Cow.DropFrame(old(M()), p, slot), r, M())
    {
      var _ :- frames.Dealloc(p);
      trk := trk - {slot};
      return Ok(());
    }

    method AddTable(pid: nat, x: Cow.Prefix) returns (r: Outcome<()>)
      modifies this, frames
      ensures Becomes(Cow.AddTable(old(M()), pid, x), r, M())
    {
      var ts := Cow.TablesOf(tables, pid);
      if !Cow.HasTable(ts, x) {
        var p :- TakeFrame(Table(pid, |ts|));
        tables := tables[pid := ts + [Cow.TableFrame(x, p)]];
      }
      return Ok(());
    }

    /** The table pages `find_pte_create` adds. */
    method AddTables(pid: nat, v: nat) returns (r: Outcome<()>)
      modifies this, frames
      ensures Becomes(Cow.AddTables(old(M()), pid, v), r, M())
    {
      hide Cow.AddTable;
      var _ :- AddTable(pid, Cow.Mid(v / 512 / 512));
      var _ :- AddTable(pid, Cow.Low(v / 512 / 512, v / 512 % 512));
      return Ok(());
    }

    method SetPte(pid: nat, v: nat, e: Cow.Pte)
      requires pid in spaces
      modifies this`spaces
      ensures M() == Cow.SetPte(old(M()), pid, v, e)
    {
      spaces := spaces[pid := Cow.Space(spaces[pid].pt[v := e], spaces[pid].areas)];
    }

    method MapPte(pid: nat, v: nat, e: Cow.Pte) returns (r: Outcome<()>)
      modifies this, frames
      ensures Becomes(Cow.MapPte(old(M()), pid, v, e), r, M())
    {
      hide Cow.AddTables;
      var _ :- AddTables(pid, v);
      if pid !in spaces || v in spaces[pid].pt { return Panic; }
      SetPte(pid, v, e);
      return Ok(());
    }

    method MapOne(pid: nat, v: nat, perm: Perm) returns (r: Outcome<nat>)
      modifies this, frames
      ensures Does(Cow.MapOne(old(M()), pid, v, perm), r, M())
    {
      hide Cow.TakeFrame, Cow.MapPte;
      var p :- TakeFrame(Data(pid, v));
      var _ :- MapPte(pid, v, Cow.Pte(p, perm, false));
      return Ok(p);
    }

    /** `MapArea::map`: the loop over the pages of a new area. */
    method MapPages(pid: nat, lo: nat, hi: nat, perm: Perm) returns (r: Outcome<Cow.Area>)
      modifies this, frames
      ensures Does(Cow.MapPages(old(M()), pid, Cow.Area(lo, hi, perm, map[]), lo), r, M())
    {
      hide Cow.MapOne;
      var a := Cow.Area(lo, hi, perm, map[]);
      var v := lo;
      while v < hi
        invariant a.hi == hi && a.perm == perm
        invariant Cow.MapPages(old(M()), pid, Cow.Area(lo, hi, perm, map[]), lo) == Cow.MapPages(M(), pid, a, v)
      {
        var p :- MapOne(pid, v, perm);
        a := a.(frames := a.frames[v := p]);
        v := v + 1;
      }
      return Ok(a);
    }

    method InsertFramed(pid: nat, lo: nat, hi: nat, perm: Perm) returns (r: Outcome<()>)
      modifies this, frames
      ensures Becomes(Cow.InsertFramed(old(M()), pid, lo, hi, perm), r, M())
    {
      hide Cow.MapPages;
      var a :- MapPages(pid, lo, hi, perm);
      if pid !in spaces { return Panic; }
      spaces := spaces[pid := Cow.Space(spaces[pid].pt, spaces[pid].areas + [a])];
      return Ok(());
    }

    method UnmapOne(pid: nat, a: Cow.Area, v: nat) returns (r: Outcome<()>)
      modifies this, frames
      ensures Becomes(Cow.UnmapOne(old(M()), pid, a, v), r, M())
    {
      if v in a.frames {
        var _ :- DropFrame(a.frames[v], Data(pid, v));
      }
      if pid !in spaces || v !in spaces[pid].pt { return Panic; }
      spaces := spaces[pid := Cow.Space(spaces[pid].pt - {v}, spaces[pid].areas)];
      return Ok(());
    }

    /** `MapArea::unmap`: the loop over the pages of an area. */
    method UnmapPages(pid: nat, a: Cow.Area) returns (r: Outcome<()>)
      modifies this, frames
      ensures Becomes(Cow.UnmapPages(old(M()), pid, a, a.lo), r, M())
    {
      hide Cow.UnmapOne;
      var v := a.lo;
      while v < a.hi
        invariant Cow.UnmapPages(old(M()), pid, a, a.lo) == Cow.UnmapPages(M(), pid, a, v)
      {
        var _ :- UnmapOne(pid, a, v);
        v := v + 1;
      }
      return Ok(());
    }

    /** Vec::remove of the area at `i`, then `area.unmap`. */
    method RemoveArea(pid: nat, i: nat) returns (r: Outcome<()>)
      modifies this, frames
      ensures Becomes(Cow.RemoveArea(old(M()), pid, i), r, M())
    {
      hide Cow.UnmapPages;
      if pid !in spaces || i >= |spaces[pid].areas| { return Panic; }
      var areas := spaces[pid].areas;
      spaces := spaces[pid := Cow.Space(spaces[pid].pt, areas[..i] + areas[i + 1..])];
      var _ :- UnmapPages(pid, areas[i]);
      return Ok(());
    }

    // ----- fork -----

    method NewSpace(pid: nat) returns (r: Outcome<()>)
      modifies this, frames
      ensures Becomes(Cow.NewSpace(old(M()), pid), r, M())
    {
      hide Cow.AddTables;
      var p :- TakeFrame(Table(pid, 0));
      tables := tables[pid := [Cow.TableFrame(Cow.Root, p)]];
      spaces := spaces[pid := Cow.Space(map[], [])];
      var _ :- AddTables(pid, Cow.TRAMPOLINE_VPN);
      return Ok(());
    }

    /** A page the user can reach is shared: clone the tracker, mark both entries COW if it was writable. */
    method SharePage(p: nat, c: nat, v: nat, n: nat) returns (r: Outcome<()>)
      modifies this, frames
      ensures Becomes(Cow.SharePage(old(M()), p, c, v, n), r, M())
    {
      hide Cow.MapPte;
      var pt := Cow.PtOf(spaces, p);
      if v !in pt { return Panic; }
      var e := pt[v];
      var _ :- frames.AddRef(n);
      trk := trk[Data(c, v) := n];
      if e.perm.w || e.cow {
        if e.cow == e.perm.w { return Panic; }
        SetPte(p, v, Cow.Shared(e));
      }
      var _ :- MapPte(c, v, Cow.Shared(e));
      return Ok(());
    }

    method CopyPage(p: nat, c: nat, v: nat, perm: Perm) returns (r: Outcome<nat>)
      modifies this, frames
      ensures Does(Cow.CopyPage(old(M()), p, c, v, perm), r, M())
    {
      hide Cow.MapOne;
      var pt := Cow.PtOf(spaces, p);
      if v !in pt { return Panic; }
      var src := pt[v].ppn;
      var n :- MapOne(c, v, perm);
      if src >= |mem| || n >= |mem| { return Panic; }
      mem := mem[n := mem[src]];
      return Ok(n);
    }

    method ForkPage(p: nat, c: nat, a: Cow.Area, v: nat) returns (r: Outcome<nat>)
      modifies this, frames
      ensures Does(Cow.ForkPage(old(M()), p, c, a, v), r, M())
    {
      hide Cow.SharePage, Cow.CopyPage;
      var pt := Cow.PtOf(spaces, p);
      if v !in pt { return Panic; }
      if pt[v].perm.u {
        if v !in a.frames { return Panic; }
        var _ :- SharePage(p, c, v, a.frames[v]);
        return Ok(a.frames[v]);
      }
      r := CopyPage(p, c, v, a.perm);
    }

    /** `from_existed_user_cow`: for every area of the parent, for every page of the area. */
    method Fork(p: nat, c: nat) returns (r: Outcome<()>)
      requires p in spaces
      modifies this, frames
      ensures Becomes(Cow.ForkSpace(old(M()), p, c), r, M())
    {
      hide Cow.NewSpace, Cow.ForkPage;
      var areas := spaces[p].areas;
      var _ :- NewSpace(c);
      var i := 0;
      while i < |areas|
        invariant i <= |areas|
        invariant Cow.ForkSpace(old(M()), p, c) == Cow.ForkAreas(M(), p, c, areas, i)
      {
        var a := areas[i];
        var na :- ForkPages(p, c, a);
        if c !in spaces { return Panic; }
        spaces := spaces[c := Cow.Space(spaces[c].pt, spaces[c].areas + [na])];
        i := i + 1;
      }
      return Ok(());
    }

    method ForkPages(p: nat, c: nat, a: Cow.Area) returns (r: Outcome<Cow.Area>)
      modifies this, frames
      ensures Does(Cow.ForkPages(old(M()), p, c, a, Cow.Area(a.lo, a.hi, a.perm, map[]), a.lo), r, M())
    {
      hide Cow.ForkPage;
      var na := Cow.Area(a.lo, a.hi, a.perm, map[]);
      var v := a.lo;
      while v < a.hi
        invariant Cow.ForkPages(old(M()), p, c, a, Cow.Area(a.lo, a.hi, a.perm, map[]), a.lo) == Cow.ForkPages(M(), p,
                c, a, na, v)
      {
        var n :- ForkPage(p, c, a, v);
        na := na.(frames := na.frames[v := n]);
        v := v + 1;
      }
      return Ok(na);
    }

    // ----- faults -----

    /** `areas.iter_mut().find`: the first area that holds the page. */
    method FindArea(pid: nat, v: nat) returns (r: Option<nat>)
      requires pid in spaces
      ensures r == Cow.FindArea(spaces[pid].areas, v, 0)
    {
      var areas := spaces[pid].areas;
      var i := 0;
      while i < |areas|
        invariant i <= |areas| && Cow.FindArea(areas, v, 0) == Cow.FindArea(areas, v, i)
      {
        if areas[i].lo <= v && v < areas[i].hi { return Some(i); }
        i := i + 1;
      }
      return None;
    }

    method CopyFault(pid: nat, v: nat) returns (r: Outcome<bool>)
      modifies this, frames
      ensures Does(Cow.CopyFault(old(M()), pid, v), r, M())
    {
      hide Cow.TakeFrame, Cow.DropFrame, Cow.FindArea;
      var pt := Cow.PtOf(spaces, pid);
      if v !in pt { return Panic; }
      var e := pt[v];
      ghost var taken := Cow.TakeFrame(M(), Local);
      TakeKeepsSpaces(M(), Local);
      var n :- TakeFrame(Local);
      if e.ppn >= |mem| { return Panic; }
      mem := mem[n := mem[e.ppn]];
      var found := FindArea(pid, v);
      if found.None? {
        var _ :- DropFrame(n, Local);
        return Ok(false);
      }
      var areas := spaces[pid].areas;
      var i := found.value;
      FoundArea(areas, v);
      if v !in areas[i].frames { return Panic; }
      var dropped := areas[i].frames[v];
      areas := areas[i := areas[i].(frames := areas[i].frames[v := n])];
      spaces := spaces[pid := Cow.Space(spaces[pid].pt, areas)];
      trk := trk[Data(pid, v) := n][Local := dropped];
      SetPte(pid, v, Cow.Resolved(e, n));
      var _ :- DropFrame(dropped, Local);
      return Ok(true);
    }

    method HandleCowFault(pid: nat, v: nat) returns (r: Outcome<bool>)
      modifies this, frames
      ensures Does(Cow.HandleCowFault(old(M()), pid, v), r, M())
    {
      hide Cow.CopyFault;
      var pt := Cow.PtOf(spaces, pid);
      if v !in pt || !pt[v].perm.u || !pt[v].cow { return Ok(false); }
      var e := pt[v];
      if e.ppn in frames.refCounts && frames.refCounts[e.ppn] == 1 {
        SetPte(pid, v, Cow.Resolved(e, e.ppn));
        return Ok(true);
      }
      r := CopyFault(pid, v);
    }

    /** `ensure_private_range`. */
    method EnsurePrivateRange(pid: nat, va: nat, len: nat) returns (r: Outcome<bool>)
      modifies this, frames
      ensures Does(Cow.EnsurePrivateRange(old(M()), pid, va, len), r, M())
    {
      hide Cow.HandleCowFault;
      if len == 0 { return Ok(true); }
      if Extend(va) + len > USIZE_MAX { return Ok(false); }
      var v, end := va / PAGE_SIZE, CeilVpn(Extend(va) + len);
      while v < end
        invariant Cow.EnsurePrivateRange(old(M()), pid, va, len) == Cow.EnsurePages(M(), pid, v, end)
      {
        var pt := Cow.PtOf(spaces, pid);
        if v !in pt || !pt[v].perm.u { return Ok(false); }
        if pt[v].cow {
          var done :- HandleCowFault(pid, v);
          if !done { return Ok(false); }
        } else if !pt[v].perm.w {
          return Ok(false);
        }
        v := v + 1;
      }
      return Ok(true);
    }

    // ----- mmap and munmap -----

    /** `area_conflicts`. */
    method AreaConflicts(pid: nat, start: nat, end: nat) returns (b: bool)
      requires pid in spaces
      ensures b == Conflicts(Cow.Ranges(spaces[pid].areas), start, end)
    {
      var ranges := Cow.Ranges(spaces[pid].areas);
      var i := 0;
      while i < |ranges|
        invariant i <= |ranges| && forall k :: 0 <= k < i ==> !Overlaps(ranges[k], start, end)
      {
        if Overlaps(ranges[i], start, end) { return true; }
        i := i + 1;
      }
      return false;
    }

    /** The search for an address in `mmap`. */
    method Place(pid: nat, start: nat, len: nat, prot: nat) returns (r: Option<nat>)
      requires pid in spaces
      ensures r == Placement(Cow.Ranges(spaces[pid].areas), start, len, prot)
    {
      if !MmapArgsOk(len, prot) { return None; }
      var n := RoundUp(len);
      if start != 0 {
        if start % PAGE_SIZE != 0 || start < MMAP_BASE || start + n > MMAP_END { return None; }
        var conflict := AreaConflicts(pid, start, start + n);
        return if conflict then None else Some(start);
      }
      var candidate := MMAP_BASE;
      while candidate + n <= MMAP_END
        invariant Placement(Cow.Ranges(spaces[pid].areas), start, len, prot) == FirstFit(Cow.Ranges(spaces[pid].areas),
                candidate, n)
        decreases MMAP_END - candidate
      {
        var conflict := AreaConflicts(pid, candidate, candidate + n);
        if !conflict { return Some(candidate); }
        assert n > 0;
        candidate := candidate + PAGE_SIZE;
      }
      return None;
    }

    method Mmap(pid: nat, start: nat, len: nat, prot: nat) returns (r: Outcome<Option<nat>>)
      requires pid in spaces
      modifies this, frames
      ensures Does(Cow.MmapSpace(old(M()), pid, start, len, prot), r, M())
    {
      hide Cow.InsertFramed, Placement;
      var a := Place(pid, start, len, prot);
      if a.Some? {
        var _ :- InsertFramed(pid, a.value / PAGE_SIZE, (a.value + RoundUp(len)) / PAGE_SIZE, ProtPerm(prot));
      }
      return Ok(a);
    }

    /** `munmap`: the position of the exact area, then its removal. */
    method Munmap(pid: nat, start: nat, len: nat) returns (r: Outcome<bool>)
      requires pid in spaces
      modifies this, frames
      ensures Does(Cow.MunmapSpace(old(M()), pid, start, len), r, M())
    {
      hide Cow.RemoveArea;
      if start % PAGE_SIZE != 0 || len == 0 || len % PAGE_SIZE != 0 || start + len > USIZE_MAX { return Ok(false); }
      var ranges := Cow.Ranges(spaces[pid].areas);
      var lo, hi := FloorVpn(start), FloorVpn(start + len);
      var i := 0;
      while i < |ranges| && !Matches(ranges[i], lo, hi)
        invariant i <= |ranges| && FindRange(ranges, lo, hi, 0) == FindRange(ranges, lo, hi, i)
      {
        i := i + 1;
      }
      if i == |ranges| { return Ok(false); }
      var _ :- RemoveArea(pid, i);
      return Ok(true);
    }

    // ----- processes -----

    /** `recycle_data_pages`, after which the space is dead. */
    method Exit(pid: nat) returns (r: Outcome<()>)
      requires pid in spaces
      modifies this, frames
      ensures Becomes(Cow.ExitSpace(old(M()), pid), r, M())
    {
      hide Cow.UnmapPages;
      var areas := spaces[pid].areas;
      var i := 0;
      while i < |areas|
        invariant Cow.ClearAreas(old(M()), pid, areas, 0) == Cow.ClearAreas(M(), pid, areas, i)
      {
        var _ :- UnmapPages(pid, areas[i]);
        i := i + 1;
      }
      spaces := spaces - {pid};
      return Ok(());
    }

    /** Dropping `PageTable::frames` of a reaped process. */
    method Reap(pid: nat) returns (r: Outcome<()>)
      modifies this, frames
      ensures Becomes(Cow.ReapTables(old(M()), pid), r, M())
    {
      hide Cow.DropFrame;
      var ts := Cow.TablesOf(tables, pid);
      tables := tables - {pid};
      var k := 0;
      while k < |ts|
        invariant Cow.ReapTables(old(M()), pid) == Cow.DropTables(M(), pid, ts, k)
      {
        var _ :- DropFrame(ts[k].ppn, Table(pid, k));
        k := k + 1;
      }
      return Ok(());
    }

    method Poke(p: nat, off: nat, b: Byte) returns (r: Outcome<()>)
      modifies this`mem
      ensures Becomes(Cow.Poke(old(M()), p, off, b), r, M())
    {
      if p >= |mem| || off >= |mem[p]| { return Panic; }
      mem := mem[p := mem[p][off := b]];
      return Ok(());
    }

    predicate StoreAllowed(pid: nat, v: nat)
      reads this
    {
      var pt := Cow.PtOf(spaces, pid);
      v in pt && pt[v].perm.u && pt[v].perm.r && pt[v].perm.w
    }

    /** A user store; a fault runs the handler and retries the instruction. */
    method StoreByte(pid: nat, v: nat, off: nat, b: Byte) returns (r: Outcome<Out>)
      modifies this, frames
      ensures Does(Cow.StoreByte(old(M()), pid, v, off, b), r, M())
    {
      hide Cow.HandleCowFault;
      if off >= PAGE_SIZE { return Ok(Fault); }
      if !StoreAllowed(pid, v) {
        var handled :- HandleCowFault(pid, v);
        if !handled || !StoreAllowed(pid, v) { return Ok(Fault); }
      }
      var _ :- Poke(Cow.PtOf(spaces, pid)[v].ppn, off, b);
      return Ok(Done);
    }

    method SpaceOp(op: Op) returns (r: Outcome<Out>)
      requires op.pid in spaces
      modifies this, frames
      ensures Does(Cow.SpaceOp(old(M()), op), r, M())
    {
      hide Cow.InsertFramed, Cow.StoreByte, Cow.MmapSpace, Cow.MunmapSpace, Cow.EnsurePrivateRange;
      match op {
        case InsertArea(pid, lo, hi, perm) =>
          if !Insertable(Cow.Ranges(spaces[pid].areas), lo, hi) { return Ok(Refused); }
          var _ :- InsertFramed(pid, lo, hi, perm);
          return Ok(Done);
        case Load(pid, v, off) =>
          var pt := Cow.PtOf(spaces, pid);
          if v in pt && pt[v].perm.u && pt[v].perm.r && off < PAGE_SIZE {
            var p := pt[v].ppn;
            if p >= |mem| || off >= |mem[p]| { return Panic; }
            return Ok(Value(mem[p][off]));
          }
          return Ok(Fault);
        case Store(pid, v, off, b) =>
          r := StoreByte(pid, v, off, b);
        case Mmap(pid, start, len, prot) =>
          var a :- Mmap(pid, start, len, prot);
          return Ok(Address(a));
        case Munmap(pid, start, len) =>
          var b :- Munmap(pid, start, len);
          return Ok(Answer(b));
        case EnsurePrivate(pid, va, len) =>
          var b :- EnsurePrivateRange(pid, va, len);
          return Ok(Answer(b));
        case _ => return Ok(Refused);
      }
    }

    method Step(op: Op) returns (r: Outcome<Out>)
      modifies this, frames
      ensures Does(Cow.Step(old(M()), op), r, M())
    {
      hide Cow.NewSpace, Cow.ForkSpace, Cow.ExitSpace, Cow.ReapTables, Cow.SpaceOp;
      match op {
        case Spawn(pid) =>
          if pid in tables { return Ok(Refused); }
          var _ :- NewSpace(pid);
          return Ok(Done);
        case Fork(pid, child) =>
          if pid !in spaces || child in tables { return Ok(Refused); }
          var _ :- Fork(pid, child);
          return Ok(Done);
        case Exit(pid) =>
          if pid !in spaces { return Ok(Refused); }
          var _ :- Exit(pid);
          return Ok(Done);
        case Reap(pid) =>
          if pid !in tables || pid in spaces { return Ok(Refused); }
          var _ :- Reap(pid);
          return Ok(Done);
        case _ =>
          if op.pid !in spaces { return Ok(Refused); }
          r := SpaceOp(op);
      }
    }

    /** Any run of the kernel answers like private memory; it stops exactly when frames run out. */
    method Run(ghost b: nat, ops: seq<Op>) returns (r: Outcome<seq<Out>>)
      requires Inv(b, M())
      modifies this, frames
      ensures Does(CowRuns.Run(old(M()), ops), r, M()) && !r.Panic?
      ensures r.Ok? ==> Inv(b, M()) && (View(M()), r.value) == PM.Run(old(View(M())), ops)
      ensures r.OutOfMemory? <==> exists n: nat :: CowRuns.StoppedAt(old(M()), ops, n)
    {
      hide Inv, View, Cow.Step, PM.Step, CowRuns.Run, CowRuns.StoppedAt;
      CowRuns.RunRefines(b, M(), ops);
      CowRuns.RunNone(M(), ops);
      var outs := [];
      var i := 0;
      while i < |ops|
        invariant i <= |ops| && Inv(b, M()) && CowRuns.Run(old(M()), ops[..i]) == Ok((M(), outs))
      {
        CowRuns.RunNext(old(M()), ops, i);
        CowRuns.StepRefines(b, M(), ops[i]);
        var stepped := Step(ops[i]);
        if !stepped.Ok? {
          CowRuns.RunStops(old(M()), ops, i + 1);
          return stepped.PropagateFailure();
        }
        outs := outs + [stepped.value];
        i := i + 1;
      }
      assert ops[..|ops|] == ops;
      return Ok(outs);
    }
  }

  lemma TakeKeepsSpaces(m: Cow.Machine, s: Slot)
    ensures match Cow.TakeFrame(m, s)
            case Ok((m1, n)) => m1.spaces == m.spaces && n < |m1.mem|
            case _ => true
  {
  }

  lemma FoundArea(areas: seq<Cow.Area>, v: nat)
    ensures Cow.FindArea(areas, v, 0).Some? ==> Cow.FindArea(areas, v, 0).value < |areas|
  {
  }
}
