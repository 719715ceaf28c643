/**
 What programs see of the copy-on-write kernel: stores are read back and
 disturb nobody, a fork copies, `mmap` gives the bytes asked for and `munmap`
 takes back exactly a whole mapping.  Each law is proved of the machine in
 which nothing is shared and holds of the kernel because that refines it.
 */
module MemoryLaws {
  import opened Wrappers
  import opened PM = PrivateMemory
  import C = CopyOnWrite
  import CR = CowRefinement
  import CowRuns

  // ----- the reference machine -----

  /** A store is read back, by its process at its place, and nothing else reads differently. */
  lemma LoadAfterStore(s: State, pid: nat, v: nat, off: nat, x: Byte, pid2: nat, v2: nat, off2: nat)
    ensures var (s1, out) := Step(s, Store(pid, v, off, x));
            if out == Done then
              Step(s1, Load(pid2, v2, off2)).1 ==
              if (pid2, v2, off2) == (pid, v, off) then Value(x) else Step(s, Load(pid2, v2, off2)).1
            else s1 == s
  {
  }

  /** A child reads what its parent does, and everybody else, the parent included, what it did. */
  lemma LoadAfterFork(s: State, pid: nat, child: nat, pid2: nat, v: nat, off: nat)
    ensures var (s1, out) := Step(s, Fork(pid, child));
            if out == Done then
              Step(s1, Load(pid2, v, off)).1 == Step(s, Load(if pid2 == child then pid else pid2, v, off)).1
            else s1 == s
  {
  }

  /** Every operation of the reference machine in terms of what is answered, what is there afterwards and what can be
      read. */
  ghost predicate Tells(s: State, op: Op, s1: State, out: Out) {
    match op
    case Spawn(pid) =>
      if pid in s.spaces || pid in s.zombies then out == Refused && s1 == s
      else out == Done && s1 == s.(spaces := s.spaces[pid := PrivateSpace(map[], [])])
    case Fork(pid, child) =>
      if pid !in s.spaces || child in s.spaces || child in s.zombies then out == Refused && s1 == s
      else out == Done && s1 == s.(spaces := s.spaces[child := s.spaces[pid]])
    case Exit(pid) =>
      if pid !in s.spaces then out == Refused && s1 == s
      else out == Done && s1 == State(s.spaces - {pid}, s.zombies + {pid})
    case Reap(pid) =>
      if pid !in s.zombies then out == Refused && s1 == s
      else out == Done && s1 == State(s.spaces, s.zombies - {pid})
    case _ =>
      if op.pid !in s.spaces then out == Refused && s1 == s
      else op.pid in s1.spaces && s1 == s.(spaces := s.spaces[op.pid := s1.spaces[op.pid]])
           && SpaceTells(s.spaces[op.pid], op, s1.spaces[op.pid], out)
  }

  /** The page at `v` may be read at `off`, or written, by the program. */
  ghost predicate May(ps: PrivateSpace, v: nat, off: nat, write: bool) {
    && v in ps.pages && ps.pages[v].perm.u && ps.pages[v].perm.r && (write ==> ps.pages[v].perm.w)
    && off < |ps.pages[v].bytes|
  }

  ghost predicate SpaceTells(ps: PrivateSpace, op: Op, ps1: PrivateSpace, out: Out) {
    match op
    case Load(_, v, off) =>
      ps1 == ps && out == if May(ps, v, off, false) then Value(ps.pages[v].bytes[off]) else Fault
    case Store(_, v, off, x) =>
      if !May(ps, v, off, true) then ps1 == ps && out == Fault
      else
        && out == Done && ps1.ranges == ps.ranges && ps1.pages.Keys == ps.pages.Keys
        && (forall w :: w in ps.pages && w != v ==> ps1.pages[w] == ps.pages[w])
        && ps1.pages[v].perm == ps.pages[v].perm && |ps1.pages[v].bytes| == |ps.pages[v].bytes|
        && forall i :: 0 <= i < |ps.pages[v].bytes| ==>
             ps1.pages[v].bytes[i] == if i == off then x else ps.pages[v].bytes[i]
    case InsertArea(_, lo, hi, perm) =>
      if !(lo < hi < 0x800_0000) || exists i :: 0 <= i < |ps.ranges| && lo < ps.ranges[i].hi && ps.ranges[i].lo < hi
      then ps1 == ps && out == Refused
      else
        && out == Done && ps1.ranges == ps.ranges + [Range(lo, hi, perm)]
        && (forall v :: v in ps1.pages <==> v in ps.pages || lo <= v < hi)
        && forall v :: v in ps1.pages ==>
             ps1.pages[v] == if lo <= v < hi then PrivatePage(seq(0x1000, _ => 0), perm) else ps.pages[v]
    case EnsurePrivate(_, va, len) => ps1 == ps && out == Answer(PrivateRange(ps.pages, va, len))
    case _ => true
  }

  /** What `mmap`, `munmap` and `ensure_private_range` do is said by `MmapMaps`, `MunmapExact` and `PrivateRangeSound`.
      */
  lemma StepTells(s: State, op: Op)
    ensures Tells(s, op, Step(s, op).0, Step(s, op).1)
  {
    if !op.Spawn? && !op.Fork? && !op.Exit? && !op.Reap? && op.pid in s.spaces {
      hide SpaceTells, SpaceStep;
      SpaceLaws(s.spaces[op.pid], op);
    }
  }

  lemma SpaceLaws(ps: PrivateSpace, op: Op)
    ensures SpaceTells(ps, op, SpaceStep(ps, op).0, SpaceStep(ps, op).1)
  {
    hide Placement, MunmapTarget, PrivateRange;
    if op.InsertArea? && op.lo < op.hi < 0x800_0000 {
      assert Insertable(ps.ranges, op.lo, op.hi) <==>
        !exists i :: 0 <= i < |ps.ranges| && op.lo < ps.ranges[i].hi && ps.ranges[i].lo < op.hi;
      assert ZeroPage() == seq(0x1000, _ => 0);
    }
  }

  /** While a mapping is there, no other can be asked for over any of it. */
  lemma OverlapRefused(ps: PrivateSpace, pid: nat, start: nat, len: nat, prot: nat, a2: nat, len2: nat, prot2: nat)
    requires RangesOk(ps.ranges) && a2 != 0
    ensures match SpaceStep(ps, Mmap(pid, start, len, prot))
            case (ps1, Address(Some(a))) =>
              a2 < a + len && a < a2 + len2 ==> SpaceStep(ps1, Mmap(pid, a2, len2, prot2)) == (ps1, Address(None))
            case _ => true
  {
    var (ps1, out) := SpaceStep(ps, Mmap(pid, start, len, prot));
    MmapMaps(ps, pid, start, len, prot);
    if out.a.Some? && a2 < out.a.value + len && out.a.value < a2 + len2 {
      MmapMaps(ps1, pid, a2, len2, prot2);
      if len2 == 0 {
        MmapRefuses(ps1.ranges, a2, len2, prot2);
      } else {
        NotEmpty(ps, pid, start, len, prot);
        Overlapping(ps1.ranges, |ps.ranges|, out.a.value, len, a2, len2);
        TakesStart(ps1, pid, a2, len2, prot2);
      }
    }
  }

  lemma NotEmpty(ps: PrivateSpace, pid: nat, start: nat, len: nat, prot: nat)
    ensures SpaceStep(ps, Mmap(pid, start, len, prot)).1 == Address(None) || len > 0
  {
    if len == 0 { MmapRefuses(ps.ranges, start, len, prot); }
  }

  lemma TakesStart(ps: PrivateSpace, pid: nat, start: nat, len: nat, prot: nat)
    requires start != 0
    ensures SpaceStep(ps, Mmap(pid, start, len, prot)).1 in {Address(Some(start)), Address(None)}
  {
  }

  lemma Overlapping(ranges: seq<Range>, i: nat, a: nat, len: nat, a2: nat, len2: nat)
    requires i < |ranges| && CoversTouched(ranges[i], a, len) && a2 < a + len && a < a2 + len2 && len > 0 && len2 > 0
    ensures !FreeRoom(ranges, a2, len2)
  {
    if a2 % PAGE_SIZE == 0 {
      var v := if a <= a2 then a2 / PAGE_SIZE else a / PAGE_SIZE;
      assert Touched(a2, len2, v) && Between(ranges[i].lo, v, ranges[i].hi);
    }
  }

  /** Every page lies in an area. */
  ghost predicate Owned(ps: PrivateSpace) {
    forall v :: v in ps.pages ==> exists i :: 0 <= i < |ps.ranges| && Between(ps.ranges[i].lo, v, ps.ranges[i].hi)
  }

  /** A mapping goes back as a whole or not at all: with its address, exactly the page-rounded length is accepted, cut
      to 39 bits; then everything is as it was before `mmap`. */
  lemma WholeMappingOnly(ps: PrivateSpace, pid: nat, start: nat, len: nat, prot: nat, k: nat)
    requires RangesOk(ps.ranges) && Owned(ps)
    ensures match SpaceStep(ps, Mmap(pid, start, len, prot))
            case (ps1, Address(Some(a))) =>
              var yes := k % 0x1000 == 0 && a + k <= USIZE_MAX && len <= k % VA_SPAN < len + 0x1000;
              SpaceStep(ps1, Munmap(pid, a, k)) == (if yes then ps else ps1, Answer(yes))
            case _ => true
  {
    var (ps1, out) := SpaceStep(ps, Mmap(pid, start, len, prot));
    MmapMaps(ps, pid, start, len, prot);
    if out.a.Some? {
      var a, n := out.a.value, |ps.ranges|;
      MunmapExact(ps1, pid, a, k);
      ExactLength(ps1.ranges[n], a, len, k);
      forall i | 0 <= i < n ensures !CoversExactly(ps1.ranges[i], a, k) { OnlyNew(ps.ranges, i, a, len, k); }
      var (ps2, found) := SpaceStep(ps1, Munmap(pid, a, k));
      hide SpaceStep, CoversExactly, CoversTouched, Touched, FreeRoom, RangesOk, Fresh;
      if found.b {
        assert ps1.ranges[..n] + ps1.ranges[n + 1..] == ps.ranges;
        assert ps2.ranges == ps.ranges;
        forall v | v in ps.pages ensures !Touched(a, len, v) { PageOutside(ps, a, len, v); }
        forall v: nat ensures Touched(a, len, v) <==> a % VA_SPAN <= v * 0x1000 < (a + k) % VA_SPAN {
          SamePages(ps1.ranges[n], a, len, k, v);
        }
        assert ps2.pages == ps.pages;
      }
    }
  }

  lemma ExactLength(r: Range, a: nat, len: nat, k: nat)
    requires CoversTouched(r, a, len) && r.lo < r.hi < VPN_SPAN && len > 0
    ensures k % 0x1000 == 0 ==> (CoversExactly(r, a, k) <==> len <= k % VA_SPAN < len + 0x1000)
  {
    var size := (r.hi - r.lo) * PAGE_SIZE;
    Wrapped(a, size, k);
    if k % 0x1000 == 0 { OnlyMultiple(r.hi - r.lo, k, len); }
  }

  lemma Wrapped(a: nat, size: nat, k: nat)
    requires a + size < VA_SPAN
    ensures a % VA_SPAN == a && ((a + k) % VA_SPAN == a + size <==> k % VA_SPAN == size)
  {
    var q, m := k / VA_SPAN, k % VA_SPAN;
    assert k == q * VA_SPAN + m;
    if a + m < VA_SPAN {
      assert (a + k) % VA_SPAN == a + m;
    } else {
      assert (a + k) % VA_SPAN == a + m - VA_SPAN;
    }
  }

  /** Of two multiples of a page, both from `len` on and less than a page further, each is the other. */
  lemma OnlyMultiple(n: nat, k: nat, len: nat)
    requires k % PAGE_SIZE == 0 && len <= n * PAGE_SIZE < len + PAGE_SIZE
    ensures len <= k % VA_SPAN < len + PAGE_SIZE <==> k % VA_SPAN == n * PAGE_SIZE
  {
    var m := k % VA_SPAN;
    assert m % PAGE_SIZE == 0;
  }

  /** No area that was there before begins at `a`. */
  lemma OnlyNew(ranges: seq<Range>, i: nat, a: nat, len: nat, k: nat)
    requires FreeRoom(ranges, a, len) && i < |ranges| && RangesOk(ranges) && len > 0
    ensures !CoversExactly(ranges[i], a, k)
  {
    var v := a / PAGE_SIZE;
    assert Touched(a, len, v);
    assert a < VA_SPAN;
  }

  lemma PageOutside(ps: PrivateSpace, a: nat, len: nat, v: nat)
    requires FreeRoom(ps.ranges, a, len) && Owned(ps) && v in ps.pages
    ensures !Touched(a, len, v)
  {
  }

  lemma SamePages(r: Range, a: nat, len: nat, k: nat, v: nat)
    requires CoversTouched(r, a, len) && CoversExactly(r, a, k)
    ensures Touched(a, len, v) <==> a % VA_SPAN <= v * 0x1000 < (a + k) % VA_SPAN
  {
  }

  // ----- the kernel -----

  /** What the kernel answers to a load: what the reference machine answers in its view. */
  ghost function Reads(m: C.Machine, pid: nat, v: nat, off: nat): Outcome<(C.Machine, Out)> {
    C.Step(m, Load(pid, v, off))
  }

  lemma KernelLoad(b: nat, m: C.Machine, pid: nat, v: nat, off: nat)
    requires CR.Inv(b, m)
    ensures Reads(m, pid, v, off).Ok?
    ensures Reads(m, pid, v, off).value.1 == Step(CR.View(m), Load(pid, v, off)).1
  {
    hide CR.Inv, C.Step, CR.View, Step;
    CowRuns.StepRefines(b, m, Load(pid, v, off));
    CowRuns.FreeNat(b, m);
  }

  /** In the kernel, shared frames and all: a store that is done is read back, and no other load of any process gives
      another answer than before. */
  lemma KernelStore(b: nat, m: C.Machine, pid: nat, v: nat, off: nat, x: Byte, pid2: nat, v2: nat, off2: nat)
    requires CR.Inv(b, m)
    ensures match C.Step(m, Store(pid, v, off, x))
            case Ok((m1, out)) =>
              && CR.Inv(b, m1) && Reads(m1, pid2, v2, off2).Ok? && Reads(m, pid2, v2, off2).Ok?
              && Reads(m1, pid2, v2, off2).value.1 ==
                 (if out == Done && (pid2, v2, off2) == (pid, v, off) then Value(x)
                  else Reads(m, pid2, v2, off2).value.1)
            case _ => true
  {
    hide CR.Inv, C.Step, CR.View, Step, Reads;
    CowRuns.StepRefines(b, m, Store(pid, v, off, x));
    LoadAfterStore(CR.View(m), pid, v, off, x, pid2, v2, off2);
    KernelLoad(b, m, pid2, v2, off2);
    if C.Step(m, Store(pid, v, off, x)).Ok? { KernelLoad(b, C.Step(m, Store(pid, v, off, x)).value.0, pid2, v2, off2); }
  }

  /** After a fork the child reads what the parent does, and nobody else notices. */
  lemma KernelFork(b: nat, m: C.Machine, pid: nat, child: nat, pid2: nat, v: nat, off: nat)
    requires CR.Inv(b, m)
    ensures match C.Step(m, Fork(pid, child))
            case Ok((m1, out)) =>
              var from := if out == Done && pid2 == child then pid else pid2;
              && CR.Inv(b, m1) && Reads(m1, pid2, v, off).Ok? && Reads(m, from, v, off).Ok?
              && Reads(m1, pid2, v, off).value.1 == Reads(m, from, v, off).value.1
            case _ => true
  {
    hide CR.Inv, C.Step, CR.View, Step, Reads;
    CowRuns.StepRefines(b, m, Fork(pid, child));
    LoadAfterFork(CR.View(m), pid, child, pid2, v, off);
    KernelLoad(b, m, pid2, v, off);
    KernelLoad(b, m, pid, v, off);
    if C.Step(m, Fork(pid, child)).Ok? { KernelLoad(b, C.Step(m, Fork(pid, child)).value.0, pid2, v, off); }
  }

  /** After an answered `mmap` every byte of the range asked for reads as 0, or faults if `prot` does not allow reads.
      */
  lemma KernelMmap(b: nat, m: C.Machine, pid: nat, start: nat, len: nat, prot: nat, x: nat)
    requires CR.Inv(b, m) && pid in m.spaces
    ensures match C.Step(m, Mmap(pid, start, len, prot))
            case Ok((m1, Address(Some(a)))) =>
              a <= x < a + len ==>
                && CR.Inv(b, m1) && Reads(m1, pid, x / 0x1000, x % 0x1000).Ok?
                && Reads(m1, pid, x / 0x1000, x % 0x1000).value.1 == if ProtReads(prot) then Value(0) else Fault
            case _ => true
  {
    hide CR.Inv, C.Step, CR.View, SpaceStep, Reads;
    CowRuns.StepRefines(b, m, Mmap(pid, start, len, prot));
    SpaceInView(b, m, pid);
    MmapUsable(CR.View(m).spaces[pid], pid, start, len, prot, x, 0);
    if C.Step(m, Mmap(pid, start, len, prot)).Ok? {
      KernelLoad(b, C.Step(m, Mmap(pid, start, len, prot)).value.0, pid, x / 0x1000, x % 0x1000);
    }
  }

  lemma SpaceInView(b: nat, m: C.Machine, pid: nat)
    requires CR.Inv(b, m) && pid in m.spaces
    ensures pid in CR.View(m).spaces && RangesOk(CR.View(m).spaces[pid].ranges)
    ensures CR.View(m).spaces[pid].ranges == C.Ranges(m.spaces[pid].areas)
    ensures |C.Ranges(m.spaces[pid].areas)| == |m.spaces[pid].areas|
    ensures forall i :: 0 <= i < |m.spaces[pid].areas| ==>
              var a := m.spaces[pid].areas[i];
              C.Ranges(m.spaces[pid].areas)[i] == Range(a.lo, a.hi, a.perm)
  {
    assert CR.AreaInv(m.spaces[pid]);
  }

  /** `munmap` in the kernel answers yes iff the arguments are page multiples that do not overflow and some user area
      covers exactly the range. */
  lemma KernelMunmap(b: nat, m: C.Machine, pid: nat, start: nat, len: nat)
    requires CR.Inv(b, m) && pid in m.spaces
    ensures match C.Step(m, Munmap(pid, start, len))
            case Ok((m1, out)) =>
              CR.Inv(b, m1) &&
              out == Answer(start % 0x1000 == 0 && len % 0x1000 == 0 && len > 0 && start + len <= USIZE_MAX
                            && exists i :: 0 <= i < |m.spaces[pid].areas|
                                           && AreaCovers(m.spaces[pid].areas[i], start, len))
            case _ => false
  {
    hide CR.Inv, C.Step, CR.View, SpaceStep;
    CowRuns.StepRefines(b, m, Munmap(pid, start, len));
    CowRuns.FreeNat(b, m);
    SpaceInView(b, m, pid);
    MunmapExact(CR.View(m).spaces[pid], pid, start, len);
    var areas, ranges := m.spaces[pid].areas, CR.View(m).spaces[pid].ranges;
    forall i | 0 <= i < |areas| ensures AreaCovers(areas[i], start, len) <==> CoversExactly(ranges[i], start, len) {}
  }

  ghost predicate AreaCovers(a: C.Area, start: nat, len: nat) {
    a.perm.u && a.lo * 0x1000 == start % VA_SPAN && a.hi * 0x1000 == (start + len) % VA_SPAN
  }
}
