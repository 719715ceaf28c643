/** Whole runs: the copy-on-write kernel is indistinguishable from private memory. */
module CowRuns {
  import opened Wrappers
  import opened FrameAllocator
  import opened PM = PrivateMemory
  import opened CopyOnWrite
  import opened CowRefinement
  import opened CowFrames
  import opened CowFork

  /** The address `mmap` picks is a free range of pages. */
  lemma PlacementInsertable(areas: seq<Area>, start: nat, len: nat, prot: nat)
    requires Laid(areas)
    ensures match Placement(Ranges(areas), start, len, prot)
            case Some(a) => Insertable(Ranges(areas), a / PAGE_SIZE, (a + RoundUp(len)) / PAGE_SIZE)
            case None => true
  {
    var p := Placement(Ranges(areas), start, len, prot);
    if p.Some? {
      var n := RoundUp(len);
      assert n > 0 && n % PAGE_SIZE == 0;
      if start == 0 { FirstFitIsLowest(Ranges(areas), MMAP_BASE, n); }
      var a := p.value;
      assert a % PAGE_SIZE == 0 && a + n <= MMAP_END && !Conflicts(Ranges(areas), a, a + n);
      forall i | 0 <= i < |areas| ensures (a + n) / PAGE_SIZE <= areas[i].lo || areas[i].hi <= a / PAGE_SIZE {
        var r := Ranges(areas)[i];
        assert !Overlaps(r, a, a + n) && r.lo < r.hi < VPN_SPAN;
        ConflictIsSharedPage(r, a, n);
        NoSharedPage(r.lo, r.hi, a / PAGE_SIZE, (a + n) / PAGE_SIZE);
      }
    }
  }

  lemma NoSharedPage(a: nat, b: nat, c: nat, d: nat)
    requires a < b && c < d && !exists v :: Between(a, v, b) && Between(c, v, d)
    ensures d <= a || b <= c
  {
    assert Between(a, a, b) && Between(c, c, d);
  }

  ghost predicate StepOk(b: nat, m: Machine, op: Op, r: Outcome<(Machine, Out)>) {
    match r
    case Ok((m1, out)) => Inv(b, m1) && (View(m1), out) == PM.Step(View(m), op)
    case OutOfMemory => true
    case Panic => false
  }

  /** A step on one address space, from what it did to that space. */
  lemma SpaceStepOk(b: nat, m: Machine, op: Op, m1: Machine, out: Out)
    requires op.pid in m.spaces && !op.Spawn? && !op.Fork? && !op.Exit? && !op.Reap? && Inv(b, m1)
    requires var (ps, o) := SpaceStep(View(m).spaces[op.pid], op); ViewChanged(m, m1, op.pid, ps) && out == o
    ensures StepOk(b, m, op, Ok((m1, out)))
  {
    hide Inv, SpaceStep;
    assert op.pid in View(m).spaces;
  }

  lemma MmapOk(b: nat, m: Machine, op: Op)
    requires Inv(b, m) && op.Mmap? && op.pid in m.spaces
    ensures StepOk(b, m, op, SpaceOp(m, op))
  {
    hide Inv, View, ViewChanged, StepOk, Placement, Insertable, InsertFramed, Insert, AreaAdded, Laid, RoundUp,
         ProtPerm, SpaceView;
    var areas := m.spaces[op.pid].areas;
    SpaceOfView(m, op.pid);
    UnchangedView(m, op.pid);
    RangesOfView(m, op.pid);
    AreasLaid(b, m, op.pid);
    PlacementInsertable(areas, op.start, op.len, op.prot);
    var a := Placement(Ranges(areas), op.start, op.len, op.prot);
    if a.Some? {
      var lo, hi := a.value / PAGE_SIZE, (a.value + RoundUp(op.len)) / PAGE_SIZE;
      InsertFramedOk(b, m, op.pid, lo, hi, ProtPerm(op.prot));
      var r := InsertFramed(m, op.pid, lo, hi, ProtPerm(op.prot));
      if r.Ok? { SpaceStepOk(b, m, op, r.value, Address(a)); } else { FailedStep(b, m, op); }
    } else {
      SpaceStepOk(b, m, op, m, Address(a));
    }
  }

  lemma RangesOfView(m: Machine, pid: nat)
    requires pid in m.spaces
    ensures SpaceView(m.spaces[pid], m.mem).ranges == Ranges(m.spaces[pid].areas)
  {
  }

  lemma FailedStep(b: nat, m: Machine, op: Op)
    ensures StepOk(b, m, op, OutOfMemory)
  {
  }

  lemma AreasLaid(b: nat, m: Machine, pid: nat)
    requires Inv(b, m) && pid in m.spaces
    ensures Laid(m.spaces[pid].areas)
  {
    assert AreaInv(m.spaces[pid]);
  }

  lemma SpaceOfView(m: Machine, pid: nat)
    requires pid in m.spaces
    ensures pid in View(m).spaces && View(m).spaces[pid] == SpaceView(m.spaces[pid], m.mem)
  {
  }

  lemma MunmapOk(b: nat, m: Machine, op: Op)
    requires Inv(b, m) && op.Munmap? && op.pid in m.spaces
    ensures StepOk(b, m, op, SpaceOp(m, op))
  {
    hide Sys, AreaInv, View, ViewChanged, StepOk;
    var areas := m.spaces[op.pid].areas;
    SpaceOfView(m, op.pid);
    UnchangedView(m, op.pid);
    var t := MunmapTarget(Ranges(areas), op.start, op.len);
    if t.Some? {
      RemoveAreaOk(b, m, op.pid, t.value);
      SpaceStepOk(b, m, op, RemoveArea(m, op.pid, t.value).value, Answer(true));
    } else {
      SpaceStepOk(b, m, op, m, Answer(false));
    }
  }

  lemma InsertOk(b: nat, m: Machine, op: Op)
    requires Inv(b, m) && op.InsertArea? && op.pid in m.spaces
    ensures StepOk(b, m, op, SpaceOp(m, op))
  {
    hide Sys, AreaInv, View, ViewChanged, StepOk;
    var areas := m.spaces[op.pid].areas;
    SpaceOfView(m, op.pid);
    UnchangedView(m, op.pid);
    if Insertable(Ranges(areas), op.lo, op.hi) {
      InsertFramedOk(b, m, op.pid, op.lo, op.hi, op.perm);
      var r := InsertFramed(m, op.pid, op.lo, op.hi, op.perm);
      if r.Ok? { SpaceStepOk(b, m, op, r.value, Done); } else { FailedStep(b, m, op); }
    } else {
      SpaceStepOk(b, m, op, m, Refused);
    }
  }

  lemma LoadOk(b: nat, m: Machine, op: Op)
    requires Inv(b, m) && op.Load? && op.pid in m.spaces
    ensures StepOk(b, m, op, SpaceOp(m, op))
  {
    hide Sys, AreaInv, View, ViewChanged, StepOk;
    ViewPages(m, op.pid);
    SpaceOfView(m, op.pid);
    UnchangedView(m, op.pid);
    if op.vpn in Pt(m, op.pid) { PageBytes(b, m, op.pid, op.vpn); }
    SpaceStepOk(b, m, op, m, SpaceOp(m, op).value.1);
  }

  lemma StoreOk(b: nat, m: Machine, op: Op)
    requires Inv(b, m) && op.Store? && op.pid in m.spaces
    ensures StepOk(b, m, op, SpaceOp(m, op))
  {
    hide Sys, AreaInv, View, ViewChanged, StepOk, StoreByte;
    SpaceOfView(m, op.pid);
    StoreByteOk(b, m, op.pid, op.vpn, op.off, op.byte);
    var r := StoreByte(m, op.pid, op.vpn, op.off, op.byte);
    if r.Ok? { SpaceStepOk(b, m, op, r.value.0, r.value.1); } else { FailedStep(b, m, op); }
  }

  lemma EnsurePrivateOk(b: nat, m: Machine, op: Op)
    requires Inv(b, m) && op.EnsurePrivate? && op.pid in m.spaces
    ensures StepOk(b, m, op, SpaceOp(m, op))
  {
    hide Sys, AreaInv, View, StepOk, EnsurePages;
    SpaceOfView(m, op.pid);
    ViewPages(m, op.pid);
    UnchangedView(m, op.pid);
    var v, end := op.va / PAGE_SIZE, CeilVpn(Extend(op.va) + op.len);
    EnsurePagesOk(b, m, op.pid, v, end);
    var r := EnsurePrivateRange(m, op.pid, op.va, op.len);
    if r.Ok? { SpaceStepOk(b, m, op, r.value.0, Answer(r.value.1)); } else { FailedStep(b, m, op); }
  }

  lemma StepAnswers(b: nat, m: Machine, op: Op)
    requires Inv(b, m)
    ensures StepOk(b, m, op, CopyOnWrite.Step(m, op))
  {
    hide Sys, AreaInv;
    assert op.pid in View(m).spaces <==> op.pid in m.spaces;
    match op
    case Spawn(pid) =>
      LiveTables(b, m);
      if pid !in m.tables {
        NewSpaceOk(b, m, pid);
        var r := NewSpace(m, pid);
        if r.Ok? { NewSpaceView(b, m, r.value, pid); }
      }
    case Fork(pid, child) =>
      LiveTables(b, m);
      if pid in m.spaces && child !in m.tables { ForkSpaceOk(b, m, pid, child); }
    case Exit(pid) => if pid in m.spaces { ExitOk(b, m, pid); }
    case Reap(pid) => if pid in m.tables && pid !in m.spaces { ReapOk(b, m, pid); }
    case InsertArea(pid, _, _, _) => if pid in m.spaces { InsertOk(b, m, op); }
    case Load(pid, _, _) => if pid in m.spaces { LoadOk(b, m, op); }
    case Store(pid, _, _, _) => if pid in m.spaces { StoreOk(b, m, op); }
    case Mmap(pid, _, _, _) => if pid in m.spaces { MmapOk(b, m, op); }
    case Munmap(pid, _, _) => if pid in m.spaces { MunmapOk(b, m, op); }
    case EnsurePrivate(pid, _, _) => if pid in m.spaces { EnsurePrivateOk(b, m, op); }
  }

  /** One kernel step does what the reference machine does and never trips an assertion of the source.  It lacks memory
      iff it costs more frames than are free. */
  lemma StepRefines(b: nat, m: Machine, op: Op)
    requires Inv(b, m)
    ensures StepOk(b, m, op, CopyOnWrite.Step(m, op))
    ensures CopyOnWrite.Step(m, op) == OutOfMemory <==> m.frames.Free() < Cost(m, op)
  {
    hide Inv, CopyOnWrite.Step;
    StepFrames(b, m, op);
    StepAnswers(b, m, op);
    FreeNat(b, m);
    if !Takes(op) { assert Cost(m, op) == 0; }
    if CopyOnWrite.Step(m, op).Ok? { FreeNat(b, CopyOnWrite.Step(m, op).value.0); }
  }

  lemma FreeNat(b: nat, m: Machine)
    requires Inv(b, m)
    ensures m.frames.Free() >= 0
  {
  }

  // ----- munmap undoes mmap -----

  lemma {:induction false} LastMatches(ranges: seq<Range>, r: Range, i: nat)
    requires i <= |ranges| && Insertable(ranges, r.lo, r.hi) && r.perm.u
    requires forall k :: 0 <= k < |ranges| ==> ranges[k].lo < ranges[k].hi
    ensures FindRange(ranges + [r], r.lo, r.hi, i) == Some(|ranges|)
    decreases |ranges| - i
  {
    if i < |ranges| {
      assert (ranges + [r])[i] == ranges[i];
      LastMatches(ranges, r, i + 1);
    } else {
      assert (ranges + [r])[i] == r;
    }
  }

  /** `munmap` of what `mmap` returned succeeds and restores every translation of every process, hence every data
      frame reference. */
  lemma MunmapUndoesMmap(b: nat, m: Machine, pid: nat, start: nat, len: nat, prot: nat)
    requires Inv(b, m) && pid in m.spaces
    requires MmapSpace(m, pid, start, len, prot).Ok? && MmapSpace(m, pid, start, len, prot).value.1.Some?
    ensures var (m1, a) := MmapSpace(m, pid, start, len, prot).value;
            && pid in m1.spaces && MunmapSpace(m1, pid, a.value, RoundUp(len)).Ok?
            && var (m2, found) := MunmapSpace(m1, pid, a.value, RoundUp(len)).value;
            && found && m2.spaces == m.spaces && Inv(b, m2)
            && (forall s: Slot :: s.Data? ==> (s in m2.trk <==> s in m.trk) && (s in m.trk ==> m2.trk[s] == m.trk[s]))
  {
    hide Sys, AreaInv, View, ViewChanged, MmapSpace, MunmapTarget, RemoveArea;
    var areas := m.spaces[pid].areas;
    var (m1, a) := MmapSpace(m, pid, start, len, prot).value;
    MmapAdds(b, m, pid, start, len, prot);
    var areas1 := m1.spaces[pid].areas;
    RemoveAreaOk(b, m1, pid, |areas|);
    var m2 := RemoveArea(m1, pid, |areas|).value;
    assert areas1[..|areas|] + areas1[|areas| + 1..] == areas;
    assert m2.spaces[pid] == m.spaces[pid];
    assert m2.spaces == m.spaces;
    SameData(b, m, m2);
  }

  /** A successful `mmap` adds one area at the end, and `munmap` of the returned range finds it. */
  lemma MmapAdds(b: nat, m: Machine, pid: nat, start: nat, len: nat, prot: nat)
    requires Inv(b, m) && pid in m.spaces
    requires MmapSpace(m, pid, start, len, prot).Ok? && MmapSpace(m, pid, start, len, prot).value.1.Some?
    ensures var (m1, a) := MmapSpace(m, pid, start, len, prot).value;
            && Inv(b, m1) && pid in m1.spaces
            && var areas, areas1 := m.spaces[pid].areas, m1.spaces[pid].areas;
            && |areas1| == |areas| + 1 && MunmapTarget(Ranges(areas1), a.value, RoundUp(len)) == Some(|areas|)
            && AreaAdded(m, m1, pid, areas1[|areas|].lo, areas1[|areas|].hi)
  {
    hide Sys, AreaInv, View, ViewChanged, InsertFramed, Placement, Insertable, Laid, RoundUp, ProtPerm;
    var areas := m.spaces[pid].areas;
    AreasLaid(b, m, pid);
    PlacementInsertable(areas, start, len, prot);
    PlacementAligned(Ranges(areas), start, len, prot);
    var (m1, sa) := MmapSpace(m, pid, start, len, prot).value;
    var a := sa.value;
    var lo, hi, perm := a / PAGE_SIZE, (a + RoundUp(len)) / PAGE_SIZE, ProtPerm(prot);
    InsertFramedOk(b, m, pid, lo, hi, perm);
    assert InsertFramed(m, pid, lo, hi, perm) == Ok(m1);
    InsertedRange(m, m1, pid, lo, hi, perm);
    RangesLaid(areas);
    assert perm.u by { UserPerm(prot); }
    LastMatches(Ranges(areas), Range(lo, hi, perm), 0);
    RangeAt(m1.spaces[pid].areas, |areas|);
  }

  lemma UserPerm(prot: nat)
    ensures ProtPerm(prot).u
  {
  }

  /** Areas that are laid out properly have proper ranges. */
  lemma RangesLaid(areas: seq<Area>)
    requires Laid(areas)
    ensures |Ranges(areas)| == |areas| && forall k :: 0 <= k < |areas| ==> Ranges(areas)[k].lo < Ranges(areas)[k].hi
  {
  }

  lemma InsertedRange(m: Machine, m1: Machine, pid: nat, lo: nat, hi: nat, perm: Perm)
    requires AreaAdded(m, m1, pid, lo, hi) && lo <= hi
    requires ViewChanged(m, m1, pid, Insert(View(m).spaces[pid], lo, hi, perm))
    ensures Ranges(m1.spaces[pid].areas) == Ranges(m.spaces[pid].areas) + [Range(lo, hi, perm)]
  {
    assert View(m1).spaces[pid].ranges == Ranges(m1.spaces[pid].areas);
    assert View(m).spaces[pid].ranges == Ranges(m.spaces[pid].areas);
  }

  lemma SameData(b: nat, m: Machine, m2: Machine)
    requires Sys(b, m) && Sys(b, m2) && m2.spaces == m.spaces
    ensures forall s: Slot :: s.Data? ==> (s in m2.trk <==> s in m.trk) && (s in m.trk ==> m2.trk[s] == m.trk[s])
  {
    forall s: Slot | s.Data? ensures (s in m2.trk <==> s in m.trk) && (s in m.trk ==> m2.trk[s] == m.trk[s]) {
      assert s == Data(s.pid, s.vpn);
    }
  }

  lemma PlacementAligned(ranges: seq<Range>, start: nat, len: nat, prot: nat)
    ensures match Placement(ranges, start, len, prot)
            case Some(a) =>
              && a % PAGE_SIZE == 0 && a + RoundUp(len) <= MMAP_END && RoundUp(len) > 0 && RoundUp(len) % PAGE_SIZE == 0
              && FloorVpn(a) == a / PAGE_SIZE && FloorVpn(a + RoundUp(len)) == (a + RoundUp(len)) / PAGE_SIZE
            case None => true
  {
    if MmapArgsOk(len, prot) && start == 0 { FirstFitIsLowest(ranges, MMAP_BASE, RoundUp(len)); }
  }

  // ----- runs -----

  /** A run of the kernel: all answers, or the reason it stopped. */
  function Run(m: Machine, ops: seq<Op>): Outcome<(Machine, seq<Out>)>
    decreases |ops|
  {
    if ops == [] then Ok((m, []))
    else
      var n := |ops| - 1;
      var (m1, outs) :- Run(m, ops[..n]);
      var (m2, out) :- CopyOnWrite.Step(m1, ops[n]);
      Ok((m2, outs + [out]))
  }

  lemma RunNone(m: Machine, ops: seq<Op>)
    ensures Run(m, ops[..0]) == Ok((m, []))
  {
  }

  lemma RunNext(m: Machine, ops: seq<Op>, n: nat)
    requires n < |ops|
    ensures Run(m, ops[..n + 1]) ==
            match Run(m, ops[..n])
            case OutOfMemory => OutOfMemory
            case Panic => Panic
            case Ok((m1, outs)) =>
              match CopyOnWrite.Step(m1, ops[n])
              case OutOfMemory => OutOfMemory
              case Panic => Panic
              case Ok((m2, out)) => Ok((m2, outs + [out]))
  {
    hide CopyOnWrite.Step;
    assert ops[..n + 1][..n] == ops[..n];
  }

  /** A run that stopped stays stopped. */
  lemma {:induction false} RunStops(m: Machine, ops: seq<Op>, n: nat)
    requires n <= |ops| && !Run(m, ops[..n]).Ok?
    ensures Run(m, ops) == Run(m, ops[..n])
    decreases |ops| - n
  {
    hide Run;
    if n == |ops| {
      assert ops[..n] == ops;
    } else {
      RunNext(m, ops, n);
      RunStops(m, ops, n + 1);
    }
  }

  /** The kernel after boot: frames `[b, end)` free, no process. */
  function Boot(b: nat, end: nat): Machine
  {
    Machine(Frames(b, end, [], map[]), seq(end, i => ZeroPage()), map[], map[], map[])
  }

  lemma BootOk(b: nat, end: nat)
    requires b <= end
    ensures Inv(b, Boot(b, end)) && View(Boot(b, end)) == State(map[], {})
  {
  }

  /** A run that stopped for want of memory: operation `n` was reached and cost more frames than were free. */
  ghost predicate StoppedAt(m: Machine, ops: seq<Op>, n: nat) {
    && n < |ops| && Run(m, ops[..n]).Ok?
    && var m1 := Run(m, ops[..n]).value.0;
       m1.frames.Free() < Cost(m1, ops[n])
  }

  /** Over every run of spawns, forks, loads, stores, maps, unmaps, range checks, exits and reaps, every process
      reads exactly what it would read if every fork had copied all pages; the run stops early exactly at an operation
      that costs more frames than are free, never at an assertion. */
  lemma {:induction false} RunRefines(b: nat, m: Machine, ops: seq<Op>)
    requires Inv(b, m)
    ensures match Run(m, ops)
            case Ok((m1, outs)) => Inv(b, m1) && (View(m1), outs) == PM.Run(View(m), ops)
            case OutOfMemory => true
            case Panic => false
    ensures Run(m, ops) == OutOfMemory <==> exists n: nat :: StoppedAt(m, ops, n)
    decreases |ops|
  {
    hide Inv, View, PM.Step, CopyOnWrite.Step, Cost;
    if ops != [] {
      var n := |ops| - 1;
      RunRefines(b, m, ops[..n]);
      StopsBefore(m, ops);
      if Run(m, ops[..n]).Ok? { StepRefines(b, Run(m, ops[..n]).value.0, ops[n]); }
    }
  }

  /** A run stops at its last operation or before. */
  lemma StopsBefore(m: Machine, ops: seq<Op>)
    requires ops != []
    ensures var n: nat := |ops| - 1;
            (exists k: nat :: StoppedAt(m, ops, k)) <==>
              StoppedAt(m, ops, n) || exists k: nat :: StoppedAt(m, ops[..n], k)
  {
    hide Run, Cost;
    var n: nat := |ops| - 1;
    forall k: nat | k < n ensures StoppedAt(m, ops, k) <==> StoppedAt(m, ops[..n], k) {
      assert ops[..n][..k] == ops[..k];
    }
  }

  /** In every reachable state: allocated and recycled frames partition the issued range, each count is the number
      of live trackers, a COW entry is not hardware-writable, and the frame of a writable user page is not shared. */
  lemma SharingInvariant(b: nat, end: nat, ops: seq<Op>)
    requires b <= end && Run(Boot(b, end), ops).Ok?
    ensures var m := Run(Boot(b, end), ops).value.0;
            && Partition(b, m.frames) && Counted(m.frames.refCounts, m.trk)
            && (forall pid, v :: v in Pt(m, pid) ==>
                  var e := Pt(m, pid)[v];
                  && (e.cow ==> !e.perm.w && e.perm.u)
                  && e.ppn in m.frames.refCounts
                  && (e.perm.w ==> m.frames.refCounts[e.ppn] == 1))
  {
    BootOk(b, end);
    RunRefines(b, Boot(b, end), ops);
    var m := Run(Boot(b, end), ops).value.0;
    hide Run, Boot;
    forall pid, v | v in Pt(m, pid)
      ensures var e := Pt(m, pid)[v];
              e.ppn in m.frames.refCounts && EntryOk(e, m.frames.refCounts[e.ppn])
    {
      EntryFacts(b, m, pid, v, Pt(m, pid)[v]);
    }
  }

  lemma {:induction false} RangeKept(b: nat, m: Machine, ops: seq<Op>)
    requires Inv(b, m)
    ensures Run(m, ops).Ok? ==> Run(m, ops).value.0.frames.end == m.frames.end
    decreases |ops|
  {
    hide Inv, View, PM.Step, CopyOnWrite.Step, Cost, Back;
    if ops != [] {
      var n := |ops| - 1;
      RangeKept(b, m, ops[..n]);
      RunRefines(b, m, ops[..n]);
      if Run(m, ops[..n]).Ok? { StepFrames(b, Run(m, ops[..n]).value.0, ops[n]); }
    }
  }

  /** No frame is ever lost: after any run from boot the free frames are all but those in use, and once every process
      has been reaped they are all free. */
  lemma NothingLost(b: nat, end: nat, ops: seq<Op>)
    requires b <= end && Run(Boot(b, end), ops).Ok?
    ensures var m := Run(Boot(b, end), ops).value.0;
            && m.frames.Free() == end - b - |InUse(m.spaces, m.tables)|
            && (m.tables == map[] ==> m.frames.Free() == end - b)
  {
    hide Inv, InUse, CopyOnWrite.Step;
    BootOk(b, end);
    RunRefines(b, Boot(b, end), ops);
    RangeKept(b, Boot(b, end), ops);
    var m := Run(Boot(b, end), ops).value.0;
    FreeIsUnused(b, m);
    if m.tables == map[] {
      LiveTables(b, m);
      assert m.spaces == map[];
      NothingUsed();
    }
  }

  lemma NothingUsed()
    ensures InUse(map[], map[]) == {}
  {
  }
}
