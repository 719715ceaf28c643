/**
 The reference machine for address spaces: every process owns private copies
 of its pages, a fork copies them all at once (`from_existed_user`,
 os/src/mm/memory_set.rs:329-347) and nothing is ever shared.  The placement
 rules of `mmap` and the range checks of `munmap` and `ensure_private_range`
 are stated here once, for both machines.
 */
module PrivateMemory {
  import opened Wrappers

  type Byte = bv8
  type Page = seq<Byte>

  const PAGE_SIZE: nat := 0x1000
  const MMAP_BASE: nat := 0x2000_0000
  const MMAP_END: nat := 0x3000_0000
  const USIZE_MAX: nat := 0xffff_ffff_ffff_ffff
  const VA_SPAN: nat := 0x80_0000_0000
  const VPN_SPAN: nat := 0x800_0000

  /** What `FrameTracker::new` leaves in a frame. */
  function ZeroPage(): (z: Page)
    ensures |z| == PAGE_SIZE && forall i :: 0 <= i < |z| ==> z[i] == 0
  {
    seq(PAGE_SIZE, i => 0)
  }

  datatype Perm = Perm(r: bool, w: bool, x: bool, u: bool)

  /** A page as its owner sees it. */
  datatype PrivatePage = PrivatePage(bytes: Page, perm: Perm)
  /** The `vpn_range` and `map_perm` of an area. */
  datatype Range = Range(lo: nat, hi: nat, perm: Perm)
  datatype PrivateSpace = PrivateSpace(pages: map<nat, PrivatePage>, ranges: seq<Range>)
  /** Live address spaces, and the processes that have exited but are not reaped. */
  datatype State = State(spaces: map<nat, PrivateSpace>, zombies: set<nat>)

  /** `VirtAddr` to `usize`: addresses of the upper half are sign-extended. */
  function Extend(va: nat): nat {
    if va >= VA_SPAN / 2 then va + (USIZE_MAX + 1 - VA_SPAN) else va
  }

  /** `VirtAddr::from(a).floor()` and `.ceil()`: the address is cut to 39 bits. */
  function FloorVpn(a: nat): nat { (a % VA_SPAN) / PAGE_SIZE }
  function CeilVpn(a: nat): nat { (a % VA_SPAN + PAGE_SIZE - 1) / PAGE_SIZE }

  // ----- area placement (mmap, munmap) -----

  /** `area_conflicts` for one area. */
  predicate Overlaps(r: Range, start: nat, end: nat) {
    start < Extend(r.hi * PAGE_SIZE) && Extend(r.lo * PAGE_SIZE) < end
  }

  predicate Conflicts(ranges: seq<Range>, start: nat, end: nat) {
    exists i :: 0 <= i < |ranges| && Overlaps(ranges[i], start, end)
  }

  /** The address loop of `mmap`: the first candidate from `c` on that fits. */
  function FirstFit(ranges: seq<Range>, c: nat, len: nat): Option<nat>
    decreases MMAP_END - c
  {
    if c + len > MMAP_END then None
    else if !Conflicts(ranges, c, c + len) then Some(c)
    else if c >= MMAP_END then None
    else FirstFit(ranges, c + PAGE_SIZE, len)
  }

  function RoundUp(len: nat): nat { (len + PAGE_SIZE - 1) / PAGE_SIZE * PAGE_SIZE }

  function ProtPerm(prot: nat): Perm {
    Perm(prot % 2 == 1 || prot / 2 % 2 == 1, prot / 2 % 2 == 1, prot / 4 % 2 == 1, true)
  }

  predicate MmapArgsOk(len: nat, prot: nat) {
    && len != 0 && prot < 8
    && len + PAGE_SIZE - 1 <= USIZE_MAX
    && (ProtPerm(prot).r || ProtPerm(prot).x)
  }

  /** The address `mmap` picks, if any. */
  function Placement(ranges: seq<Range>, start: nat, len: nat, prot: nat): Option<nat> {
    if !MmapArgsOk(len, prot) then None
    else if start == 0 then FirstFit(ranges, MMAP_BASE, RoundUp(len))
    else if start % PAGE_SIZE != 0 || start < MMAP_BASE || start + RoundUp(len) > MMAP_END
         || Conflicts(ranges, start, start + RoundUp(len)) then None
    else Some(start)
  }

  predicate Matches(r: Range, lo: nat, hi: nat) { r.lo == lo && r.hi == hi && r.perm.u }

  /** The index search of `munmap`: the first matching area from `i` on. */
  function FindRange(ranges: seq<Range>, lo: nat, hi: nat, i: nat): (r: Option<nat>)
    requires i <= |ranges|
    ensures r.Some? ==> i <= r.value < |ranges| && Matches(ranges[r.value], lo, hi)
    ensures r.None? <==> forall k :: i <= k < |ranges| ==> !Matches(ranges[k], lo, hi)
    decreases |ranges| - i
  {
    if i == |ranges| then None
    else if Matches(ranges[i], lo, hi) then Some(i)
    else FindRange(ranges, lo, hi, i + 1)
  }

  function MunmapTarget(ranges: seq<Range>, start: nat, len: nat): Option<nat> {
    if start % PAGE_SIZE != 0 || len == 0 || len % PAGE_SIZE != 0 || start + len > USIZE_MAX then None
    else FindRange(ranges, FloorVpn(start), FloorVpn(start + len), 0)
  }

  /** The answer of `ensure_private_range` in the reference machine. */
  ghost predicate PrivateRange(pages: map<nat, PrivatePage>, va: nat, len: nat) {
    len == 0 ||
    (Extend(va) + len <= USIZE_MAX &&
     forall v :: va / PAGE_SIZE <= v < CeilVpn(Extend(va) + len) ==> Writable(pages, v))
  }

  predicate Writable(pages: map<nat, PrivatePage>, v: nat) {
    v in pages && pages[v].perm.u && pages[v].perm.w
  }

  // ----- steps -----

  datatype Op =
    | Spawn(pid: nat)
    | InsertArea(pid: nat, lo: nat, hi: nat, perm: Perm)
    | Fork(pid: nat, child: nat)
    | Load(pid: nat, vpn: nat, off: nat)
    | Store(pid: nat, vpn: nat, off: nat, byte: Byte)
    | Mmap(pid: nat, start: nat, len: nat, prot: nat)
    | Munmap(pid: nat, start: nat, len: nat)
    | EnsurePrivate(pid: nat, va: nat, len: nat)
    | Exit(pid: nat)
    | Reap(pid: nat)

  datatype Out = Done | Refused | Fault | Value(byte: Byte) | Address(a: Option<nat>) | Answer(b: bool)

  function Unused(s: State, pid: nat): bool { pid !in s.spaces && pid !in s.zombies }

  /** What callers of `insert_framed_area` must respect: a non-empty range below the trampoline, free of areas. */
  predicate Insertable(ranges: seq<Range>, lo: nat, hi: nat) {
    && lo < hi < VPN_SPAN
    && forall i :: 0 <= i < |ranges| ==> hi <= ranges[i].lo || ranges[i].hi <= lo
  }

  /** Page by page, as `MapArea::map` does. */
  function AddZeroPages(pages: map<nat, PrivatePage>, lo: nat, hi: nat, perm: Perm): (r: map<nat, PrivatePage>)
    requires lo <= hi
    ensures forall v :: v in r <==> v in pages || Between(lo, v, hi)
    ensures forall v :: v in r ==> r[v] == if Between(lo, v, hi) then PrivatePage(ZeroPage(), perm) else pages[v]
    decreases hi
  {
    if lo == hi then pages else AddZeroPages(pages, lo, hi - 1, perm)[hi - 1 := PrivatePage(ZeroPage(), perm)]
  }

  predicate Between(lo: nat, v: nat, hi: nat) { lo <= v < hi }

  function DropPages(pages: map<nat, PrivatePage>, lo: nat, hi: nat): map<nat, PrivatePage> {
    map v | v in pages && !(lo <= v < hi) :: pages[v]
  }

  function Insert(ps: PrivateSpace, lo: nat, hi: nat, perm: Perm): PrivateSpace
    requires lo <= hi
  {
    PrivateSpace(AddZeroPages(ps.pages, lo, hi, perm), ps.ranges + [Range(lo, hi, perm)])
  }

  function Remove(ps: PrivateSpace, i: nat): PrivateSpace
    requires i < |ps.ranges|
  {
    PrivateSpace(DropPages(ps.pages, ps.ranges[i].lo, ps.ranges[i].hi), ps.ranges[..i] + ps.ranges[i + 1..])
  }

  /** A user access succeeds when the page is a user page with a legal leaf encoding for it (W needs R). */
  predicate Loadable(pages: map<nat, PrivatePage>, v: nat, off: nat) {
    v in pages && pages[v].perm.u && pages[v].perm.r && off < |pages[v].bytes|
  }

  predicate Storable(pages: map<nat, PrivatePage>, v: nat, off: nat) {
    Loadable(pages, v, off) && pages[v].perm.w
  }

  function WriteByte(pages: map<nat, PrivatePage>, v: nat, off: nat, b: Byte): map<nat, PrivatePage>
    requires v in pages && off < |pages[v].bytes|
  {
    pages[v := PrivatePage(pages[v].bytes[off := b], pages[v].perm)]
  }

  ghost function Step(s: State, op: Op): (State, Out) {
    match op
    case Spawn(pid) =>
      if !Unused(s, pid) then (s, Refused)
      else (s.(spaces := s.spaces[pid := PrivateSpace(map[], [])]), Done)
    case Fork(pid, child) =>
      if pid !in s.spaces || !Unused(s, child) then (s, Refused)
      else (s.(spaces := s.spaces[child := s.spaces[pid]]), Done)
    case Exit(pid) =>
      if pid !in s.spaces then (s, Refused)
      else (State(s.spaces - {pid}, s.zombies + {pid}), Done)
    case Reap(pid) =>
      if pid !in s.zombies then (s, Refused) else (s.(zombies := s.zombies - {pid}), Done)
    case _ =>
      if op.pid !in s.spaces then (s, Refused)
      else
        var (ps, out) := SpaceStep(s.spaces[op.pid], op);
        (s.(spaces := s.spaces[op.pid := ps]), out)
  }

  /** The steps that concern one address space only. */
  ghost function SpaceStep(ps: PrivateSpace, op: Op): (PrivateSpace, Out) {
    match op
    case InsertArea(_, lo, hi, perm) =>
      if !Insertable(ps.ranges, lo, hi) then (ps, Refused) else (Insert(ps, lo, hi, perm), Done)
    case Load(_, v, off) =>
      (ps, if Loadable(ps.pages, v, off) then Value(ps.pages[v].bytes[off]) else Fault)
    case Store(_, v, off, b) =>
      if Storable(ps.pages, v, off) then (ps.(pages := WriteByte(ps.pages, v, off, b)), Done) else (ps, Fault)
    case Mmap(_, start, len, prot) =>
      var a := Placement(ps.ranges, start, len, prot);
      (if a.Some? then Insert(ps, a.value / PAGE_SIZE, (a.value + RoundUp(len)) / PAGE_SIZE, ProtPerm(prot)) else ps,
       Address(a))
    case Munmap(_, start, len) =>
      var t := MunmapTarget(ps.ranges, start, len);
      if t.Some? then (Remove(ps, t.value), Answer(true)) else (ps, Answer(false))
    case EnsurePrivate(_, va, len) => (ps, Answer(PrivateRange(ps.pages, va, len)))
    case _ => (ps, Refused)
  }

  /** The state after a run of the reference machine, and everything it answered. */
  ghost function Run(s: State, ops: seq<Op>): (State, seq<Out>)
    decreases |ops|
  {
    if ops == [] then (s, [])
    else
      var n := |ops| - 1;
      var (t, outs) := Run(s, ops[..n]);
      var (u, out) := Step(t, ops[n]);
      (u, outs + [out])
  }

  // ----- placement theorems -----

  predicate Fits(ranges: seq<Range>, a: nat, len: nat) {
    && MMAP_BASE <= a && a % PAGE_SIZE == 0 && a + len <= MMAP_END
    && !Conflicts(ranges, a, a + len)
  }

  /** `FirstFit` finds the lowest aligned gap at or above `c`, and fails only when there is none. */
  lemma {:induction false} FirstFitIsLowest(ranges: seq<Range>, c: nat, len: nat)
    requires c % PAGE_SIZE == 0 && MMAP_BASE <= c && 0 < len
    ensures match FirstFit(ranges, c, len)
            case Some(a) => a >= c && Fits(ranges, a, len) && forall b :: c <= b < a ==> !Fits(ranges, b, len)
            case None => forall b :: c <= b ==> !Fits(ranges, b, len)
    decreases MMAP_END - c
  {
    if c + len <= MMAP_END && Conflicts(ranges, c, c + len) {
      FirstFitIsLowest(ranges, c + PAGE_SIZE, len);
      forall b | c <= b < c + PAGE_SIZE ensures !Fits(ranges, b, len) {
        if b % PAGE_SIZE == 0 { AlignedBetween(c, b); }
      }
    }
  }

  lemma AlignedBetween(c: nat, b: nat)
    requires c % PAGE_SIZE == 0 && b % PAGE_SIZE == 0 && c <= b < c + PAGE_SIZE
    ensures b == c
  {
  }

  /** Below the trampoline, an area conflicts with an aligned window exactly when they share a page. */
  lemma ConflictIsSharedPage(r: Range, a: nat, len: nat)
    requires r.lo < r.hi < VPN_SPAN
    requires a % PAGE_SIZE == 0 && len % PAGE_SIZE == 0 && 0 < len && a + len <= VA_SPAN / 2
    ensures Overlaps(r, a, a + len) <==>
            exists v :: Between(r.lo, v, r.hi) && Between(a / PAGE_SIZE, v, (a + len) / PAGE_SIZE)
  {
    var p, q := a / PAGE_SIZE, (a + len) / PAGE_SIZE;
    if r.hi * PAGE_SIZE < VA_SPAN / 2 || r.lo * PAGE_SIZE < VA_SPAN / 2 {
      if Overlaps(r, a, a + len) {
        var v := if r.lo < p then p else r.lo;
        assert Between(r.lo, v, r.hi) && Between(p, v, q);
      }
    }
  }

  /** No page of `[a, a + n)` lies in any area, inside the mmap window. */
  ghost predicate FreeGap(ranges: seq<Range>, a: nat, n: nat) {
    && MMAP_BASE <= a && a % PAGE_SIZE == 0 && a + n <= MMAP_END
    && forall i :: 0 <= i < |ranges| ==> NoCommonPage(ranges[i], a / PAGE_SIZE, (a + n) / PAGE_SIZE)
  }

  ghost predicate NoCommonPage(r: Range, lo: nat, hi: nat) {
    forall v :: Between(r.lo, v, r.hi) ==> !Between(lo, v, hi)
  }

  lemma FitsIsFreeGap(ranges: seq<Range>, a: nat, n: nat)
    requires 0 < n && n % PAGE_SIZE == 0 && forall i :: 0 <= i < |ranges| ==> ranges[i].lo < ranges[i].hi < VPN_SPAN
    ensures Fits(ranges, a, n) <==> FreeGap(ranges, a, n)
  {
    if a % PAGE_SIZE == 0 && a + n <= MMAP_END {
      forall i | 0 <= i < |ranges|
        ensures Overlaps(ranges[i], a, a + n) <==> !NoCommonPage(ranges[i], a / PAGE_SIZE, (a + n) / PAGE_SIZE)
      {
        ConflictIsSharedPage(ranges[i], a, n);
      }
    }
  }

  // ----- what `mmap` and `munmap` do, in bytes -----

  /** Page `v` holds a byte of `[a, a + len)`, where `a` is the start of a page. */
  predicate Touched(a: nat, len: nat, v: nat) { a <= v * PAGE_SIZE < a + len }

  /** Every page that `[a, a + len)` touches is inside the window and in no area. */
  ghost predicate FreeRoom(ranges: seq<Range>, a: nat, len: nat) {
    && a % PAGE_SIZE == 0
    && forall v: nat :: Touched(a, len, v) ==>
         && MMAP_BASE <= v * PAGE_SIZE && v * PAGE_SIZE + PAGE_SIZE <= MMAP_END
         && forall i :: 0 <= i < |ranges| ==> !Between(ranges[i].lo, v, ranges[i].hi)
  }

  ghost predicate RangesOk(ranges: seq<Range>) {
    forall i :: 0 <= i < |ranges| ==> ranges[i].lo < ranges[i].hi < VPN_SPAN
  }

  /** The arguments `mmap` looks at further. */
  lemma MmapArgs(len: nat, prot: nat)
    ensures MmapArgsOk(len, prot) <==> 0 < len && len + 0xfff <= USIZE_MAX && 1 <= prot <= 7
  {
  }

  /** The pages from `a` up to `a + RoundUp(len)` are those that `[a, a + len)` touches. */
  lemma RoundedPages(a: nat, len: nat, v: nat)
    requires a % PAGE_SIZE == 0
    ensures Between(a / PAGE_SIZE, v, (a + RoundUp(len)) / PAGE_SIZE) <==> Touched(a, len, v)
    ensures RoundUp(len) % PAGE_SIZE == 0 && RoundUp(len) >= len && (len > 0 ==> RoundUp(len) > 0)
  {
    var n := (len + PAGE_SIZE - 1) / PAGE_SIZE;
    assert (a + n * PAGE_SIZE) / PAGE_SIZE == a / PAGE_SIZE + n;
  }

  lemma RoomIsGap(ranges: seq<Range>, a: nat, len: nat)
    requires len > 0
    ensures FreeRoom(ranges, a, len) <==> FreeGap(ranges, a, RoundUp(len))
  {
    if a % PAGE_SIZE == 0 {
      hide RoundUp, Between, Touched;
      forall v ensures Between(a / PAGE_SIZE, v, (a + RoundUp(len)) / PAGE_SIZE) <==> Touched(a, len, v) {
        RoundedPages(a, len, v);
      }
      RoomInWindow(ranges, a, len);
      if FreeRoom(ranges, a, len) {
        forall i, v: nat | 0 <= i < |ranges| && Between(ranges[i].lo, v, ranges[i].hi)
          ensures !Between(a / PAGE_SIZE, v, (a + RoundUp(len)) / PAGE_SIZE)
        {
          if Touched(a, len, v) { assert false; }
        }
      }
    }
  }

  /** The first and the last page touched decide whether all are inside the window. */
  lemma RoomInWindow(ranges: seq<Range>, a: nat, len: nat)
    requires len > 0 && a % PAGE_SIZE == 0
    ensures FreeRoom(ranges, a, len) ==> MMAP_BASE <= a && a + RoundUp(len) <= MMAP_END
    ensures MMAP_BASE <= a && a + RoundUp(len) <= MMAP_END ==>
              forall v: nat :: Touched(a, len, v) ==>
                MMAP_BASE <= v * PAGE_SIZE && v * PAGE_SIZE + PAGE_SIZE <= MMAP_END
  {
    var n := (len + PAGE_SIZE - 1) / PAGE_SIZE;
    var first, last := a / PAGE_SIZE, a / PAGE_SIZE + n - 1;
    assert Touched(a, len, first) && Touched(a, len, last);
  }

  /** With address 0 and valid arguments, `mmap` picks the lowest free room of the window, or fails exactly when
      there is none. */
  lemma MmapPicksLowestGap(ranges: seq<Range>, len: nat, prot: nat)
    requires 0 < len && len + 0xfff <= USIZE_MAX && 1 <= prot <= 7 && RangesOk(ranges)
    ensures match Placement(ranges, 0, len, prot)
            case Some(a) => FreeRoom(ranges, a, len) && forall b: nat :: b < a ==> !FreeRoom(ranges, b, len)
            case None => forall b :: !FreeRoom(ranges, b, len)
  {
    var n := RoundUp(len);
    MmapArgs(len, prot);
    RoundedPages(0, len, 0);
    hide RoundUp, MmapArgsOk, FreeGap, FreeRoom, Fits;
    FirstFitIsLowest(ranges, MMAP_BASE, n);
    forall b ensures Fits(ranges, b, n) <==> FreeRoom(ranges, b, len) {
      FitsIsFreeGap(ranges, b, n);
      RoomIsGap(ranges, b, len);
    }
    forall b: nat | b < MMAP_BASE ensures !FreeRoom(ranges, b, len) { BelowWindow(ranges, b, len); }
  }

  lemma BelowWindow(ranges: seq<Range>, b: nat, len: nat)
    requires b < MMAP_BASE && len > 0
    ensures !FreeRoom(ranges, b, len)
  {
    if b % PAGE_SIZE == 0 { assert Touched(b, len, b / PAGE_SIZE); }
  }

  /** With an address, `mmap` takes exactly that address, or fails exactly when there is no free room. */
  lemma MmapHonoursStart(ranges: seq<Range>, start: nat, len: nat, prot: nat)
    requires 0 < len && len + 0xfff <= USIZE_MAX && 1 <= prot <= 7 && start != 0 && RangesOk(ranges)
    ensures Placement(ranges, start, len, prot) == if FreeRoom(ranges, start, len) then Some(start) else None
  {
    MmapArgs(len, prot);
    RoundedPages(0, len, 0);
    hide FreeGap, FreeRoom, Conflicts, RoundUp, MmapArgsOk;
    FitsIsFreeGap(ranges, start, RoundUp(len));
    RoomIsGap(ranges, start, len);
  }

  /** Other arguments are refused. */
  lemma MmapRefuses(ranges: seq<Range>, start: nat, len: nat, prot: nat)
    requires len == 0 || len + 0xfff > USIZE_MAX || prot == 0 || prot > 7
    ensures Placement(ranges, start, len, prot) == None
  {
    MmapArgs(len, prot);
  }

  /** What a mapping may be used for, by the number given to `mmap`. */
  predicate ProtReads(prot: nat) { prot in {1, 2, 3, 5, 6, 7} }
  predicate ProtWrites(prot: nat) { prot in {2, 3, 6, 7} }

  /** An answered `mmap` adds the pages that `[a, a + len)` touches, zeroed and with the permissions asked for, and
      changes no other page. */
  lemma MmapMaps(ps: PrivateSpace, pid: nat, start: nat, len: nat, prot: nat)
    requires RangesOk(ps.ranges)
    ensures match SpaceStep(ps, Mmap(pid, start, len, prot))
            case (ps1, Address(Some(a))) =>
              && FreeRoom(ps.ranges, a, len)
              && (forall v :: v in ps1.pages <==> v in ps.pages || Touched(a, len, v))
              && (forall v :: Touched(a, len, v) ==> Fresh(ps1.pages[v], prot))
              && (forall v :: v in ps.pages && !Touched(a, len, v) ==> ps1.pages[v] == ps.pages[v])
              && |ps1.ranges| == |ps.ranges| + 1 && ps1.ranges[..|ps.ranges|] == ps.ranges && RangesOk(ps1.ranges)
              && CoversTouched(ps1.ranges[|ps.ranges|], a, len)
            case (ps1, Address(None)) => ps1 == ps
            case _ => false
  {
    var a := Placement(ps.ranges, start, len, prot);
    if a.Some? {
      assert MmapArgsOk(len, prot);
      MmapArgs(len, prot);
      ProtIs(prot);
      if start == 0 {
        MmapPicksLowestGap(ps.ranges, len, prot);
      } else {
        MmapHonoursStart(ps.ranges, start, len, prot);
      }
      RoomInWindow(ps.ranges, a.value, len);
      NewRange(a.value, len, ProtPerm(prot));
      hide RoundUp, ProtPerm, Placement, Touched, MmapArgsOk, FreeRoom, CoversTouched;
      RoundedPages(a.value, len, 0);
      assert a.value / PAGE_SIZE <= (a.value + RoundUp(len)) / PAGE_SIZE;
      forall v
        ensures Between(a.value / PAGE_SIZE, v, (a.value + RoundUp(len)) / PAGE_SIZE) <==> Touched(a.value, len, v)
      {
        RoundedPages(a.value, len, v);
      }
    }
  }

  /** The new area: a user area of the pages touched. */
  ghost predicate CoversTouched(r: Range, a: nat, len: nat) {
    r.perm.u && r.lo * PAGE_SIZE == a && len <= (r.hi - r.lo) * PAGE_SIZE < len + PAGE_SIZE
  }

  lemma NewRange(a: nat, len: nat, perm: Perm)
    requires a % PAGE_SIZE == 0 && len > 0 && a + RoundUp(len) <= MMAP_END && perm.u
    ensures var r := Range(a / PAGE_SIZE, (a + RoundUp(len)) / PAGE_SIZE, perm);
            CoversTouched(r, a, len) && r.lo < r.hi < VPN_SPAN
  {
    var n := (len + PAGE_SIZE - 1) / PAGE_SIZE;
    assert (a + n * PAGE_SIZE) / PAGE_SIZE == a / PAGE_SIZE + n;
  }

  /** A page as `mmap` leaves it. */
  ghost predicate Fresh(page: PrivatePage, prot: nat) {
    && |page.bytes| == 0x1000 && (forall i :: 0 <= i < 0x1000 ==> page.bytes[i] == 0)
    && page.perm.u && page.perm.r == ProtReads(prot) && page.perm.w == ProtWrites(prot) && page.perm.x == (prot >= 4)
  }

  lemma ProtIs(prot: nat)
    requires prot < 8
    ensures ProtPerm(prot) == Perm(ProtReads(prot), ProtWrites(prot), prot >= 4, true)
  {
  }

  /** So after it every byte of `[a, a + len)` loads as 0 or faults, and takes a store or faults, by `prot`. */
  lemma MmapUsable(ps: PrivateSpace, pid: nat, start: nat, len: nat, prot: nat, x: nat, b: Byte)
    requires RangesOk(ps.ranges)
    ensures match SpaceStep(ps, Mmap(pid, start, len, prot))
            case (ps1, Address(Some(a))) =>
              a <= x < a + len ==>
                var v, off := x / 0x1000, x % 0x1000;
                && SpaceStep(ps1, Load(pid, v, off)).1 == (if ProtReads(prot) then Value(0) else Fault)
                && SpaceStep(ps1, Store(pid, v, off, b)).1 == (if ProtWrites(prot) then Done else Fault)
            case _ => true
  {
    MmapMaps(ps, pid, start, len, prot);
    var a := Placement(ps.ranges, start, len, prot);
    if a.Some? && a.value <= x < a.value + len {
      TouchedByte(a.value, len, x);
      hide Placement, RoundUp, ProtPerm, FreeRoom, Touched;
    }
  }

  lemma TouchedByte(a: nat, len: nat, x: nat)
    requires a % PAGE_SIZE == 0 && a <= x < a + len
    ensures Touched(a, len, x / PAGE_SIZE)
  {
  }

  /** The area that covers exactly the pages of `[start, start + len)`, addresses cut to 39 bits. */
  ghost predicate CoversExactly(r: Range, start: nat, len: nat) {
    r.perm.u && r.lo * PAGE_SIZE == start % VA_SPAN && r.hi * PAGE_SIZE == (start + len) % VA_SPAN
  }

  /** `munmap` says yes iff its arguments are page multiples, the length is not 0, the end does not overflow, and some
      user area covers exactly the range; then exactly the pages of the range go, and that area. */
  lemma MunmapExact(ps: PrivateSpace, pid: nat, start: nat, len: nat)
    requires RangesOk(ps.ranges)
    ensures match SpaceStep(ps, Munmap(pid, start, len))
            case (ps1, Answer(yes)) =>
              && (yes <==> start % 0x1000 == 0 && len % 0x1000 == 0 && len > 0 && start + len <= USIZE_MAX
                           && exists i :: 0 <= i < |ps.ranges| && CoversExactly(ps.ranges[i], start, len))
              && (!yes ==> ps1 == ps)
              && (yes ==>
                   && (forall v :: v in ps1.pages <==>
                         v in ps.pages && !(start % VA_SPAN <= v * 0x1000 < (start + len) % VA_SPAN))
                   && (forall v :: v in ps1.pages ==> ps1.pages[v] == ps.pages[v])
                   && exists i :: 0 <= i < |ps.ranges| && CoversExactly(ps.ranges[i], start, len)
                                  && ps1.ranges == ps.ranges[..i] + ps.ranges[i + 1..])
            case _ => false
  {
    if start % PAGE_SIZE == 0 && len % PAGE_SIZE == 0 {
      forall i | 0 <= i < |ps.ranges|
        ensures Matches(ps.ranges[i], FloorVpn(start), FloorVpn(start + len)) <==>
                  CoversExactly(ps.ranges[i], start, len)
      {
        MatchesIs(ps.ranges[i], start, len);
      }
    }
    var t := MunmapTarget(ps.ranges, start, len);
    if t.Some? {
      hide Matches, FloorVpn;
      var r := ps.ranges[t.value];
      assert CoversExactly(r, start, len);
      forall v: nat ensures r.lo <= v < r.hi <==> start % VA_SPAN <= v * 0x1000 < (start + len) % VA_SPAN {}
    }
  }

  lemma MatchesIs(r: Range, start: nat, len: nat)
    requires start % PAGE_SIZE == 0 && len % PAGE_SIZE == 0
    ensures Matches(r, FloorVpn(start), FloorVpn(start + len)) <==> CoversExactly(r, start, len)
  {
    assert start % VA_SPAN % PAGE_SIZE == 0 && (start + len) % VA_SPAN % PAGE_SIZE == 0;
  }

  /** What a caller asks of a yes: that every address of the range, cut to 39 bits as the hardware cuts it, is on a
      page that the process may write. */
  ghost predicate AllWritable(pages: map<nat, PrivatePage>, va: nat, len: nat) {
    forall a :: va <= a < va + len ==> Writable(pages, a % VA_SPAN / 0x1000)
  }

  /** A range that ends below the top of the 39-bit space is checked page for page; a range of the upper half that does
      not is refused. */
  lemma RangeBelowTop(pages: map<nat, PrivatePage>, va: nat, len: nat)
    requires va < VA_SPAN
    ensures va + len < VA_SPAN ==>
              (PrivateRange(pages, va, len) <==> AllWritable(pages, va, len))
    ensures va >= VA_SPAN / 2 && va + len >= VA_SPAN && len > 0 ==> !PrivateRange(pages, va, len)
  {
    hide Writable, CeilVpn;
    if len > 0 && va + len < VA_SPAN {
      RangePages(va, len);
      hide Extend;
      var hi := CeilVpn(Extend(va) + len);
      if PrivateRange(pages, va, len) {
        forall a | va <= a < va + len ensures Writable(pages, FloorVpn(a)) { AddressInRange(va, len, a); }
      }
      if AllWritable(pages, va, len) {
        forall v | va / PAGE_SIZE <= v < hi ensures Writable(pages, v) { var a := PageInRange(va, len, v); }
      }
    }
  }

  /** The range passes the top from the first page by so much that every page number is in it and is checked. */
  predicate Everything(va: nat, len: nat) {
    va < 0x1000 && VA_SPAN <= va + len <= USIZE_MAX && (va + len) % VA_SPAN > VA_SPAN - 0x1000
  }

  /** `ensure_private_range` says yes exactly when every address is writable, whatever the pages are, iff the range ends
      below the top of the address space or is everything. */
  lemma PrivateRangeIsExact(va: nat, len: nat)
    requires va < VA_SPAN
    ensures (forall pages :: PrivateRange(pages, va, len) <==> AllWritable(pages, va, len)) <==>
              len == 0 || va + len < VA_SPAN || Everything(va, len)
  {
    hide AllWritable, PrivateRange;
    if len == 0 || va + len < VA_SPAN || Everything(va, len) {
      forall pages ensures PrivateRange(pages, va, len) <==> AllWritable(pages, va, len) { ExactRange(pages, va, len); }
    } else if Covers(va, len) {
      var pages := AllOpen(va, len);
      assert !PrivateRange(pages, va, len) && AllWritable(pages, va, len);
    } else {
      var pages := Fooled(va, len);
      assert PrivateRange(pages, va, len) && !AllWritable(pages, va, len);
    }
  }

  lemma ExactRange(pages: map<nat, PrivatePage>, va: nat, len: nat)
    requires va < VA_SPAN && (len == 0 || va + len < VA_SPAN || Everything(va, len))
    ensures PrivateRange(pages, va, len) <==> AllWritable(pages, va, len)
  {
    hide Writable;
    if va + len < VA_SPAN {
      RangeBelowTop(pages, va, len);
    } else if len > 0 {
      if PrivateRange(pages, va, len) { CoveredIsSound(pages, va, len); }
      if AllWritable(pages, va, len) {
        forall v | 0 <= v < VPN_SPAN ensures Writable(pages, v) {
          var a := if v == 0 then va else v * PAGE_SIZE;
          assert FloorVpn(a) == v && va <= a < va + len;
        }
      }
    }
  }

  /** A range of the upper half that reaches the top, or one that passes 64 bits, is refused though all is writable. */
  lemma AllOpen(va: nat, len: nat) returns (pages: map<nat, PrivatePage>)
    requires va < VA_SPAN && Covers(va, len) && len > 0 && va + len >= VA_SPAN && !Everything(va, len)
    ensures !PrivateRange(pages, va, len) && AllWritable(pages, va, len)
  {
    pages := OpenPages(0, VPN_SPAN);
    forall a | va <= a < va + len ensures Writable(pages, FloorVpn(a)) { assert 0 <= FloorVpn(a) < VPN_SPAN; }
  }

  /** User pages `[lo, hi)`, all writable. */
  ghost function OpenPages(lo: nat, hi: nat): (pages: map<nat, PrivatePage>)
    ensures forall v: nat :: Writable(pages, v) <==> lo <= v < hi
    decreases hi - lo
  {
    if lo >= hi then map[]
    else
      var rest := OpenPages(lo + 1, hi);
      var all := rest[lo := PrivatePage([], Perm(true, true, false, true))];
      assert forall v: nat :: Writable(all, v) <==> v == lo || Writable(rest, v);
      all
  }

  /** The pages checked cover the range, or the range is refused whatever its pages are. */
  predicate Covers(va: nat, len: nat) {
    len == 0 || va + len < VA_SPAN || va >= VA_SPAN / 2 || va + len > USIZE_MAX || Everything(va, len)
  }

  /** A yes can be trusted, whatever the pages are, iff the range does not pass the top of the address space from the
      lower half, or is refused, or is everything. */
  lemma PrivateRangeSound(va: nat, len: nat)
    requires va < VA_SPAN
    ensures (forall pages :: PrivateRange(pages, va, len) ==> AllWritable(pages, va, len)) <==> Covers(va, len)
  {
    hide AllWritable, PrivateRange, Covers;
    if Covers(va, len) {
      forall pages | PrivateRange(pages, va, len) ensures AllWritable(pages, va, len) {
        CoveredIsSound(pages, va, len);
      }
    } else {
      var pages := Fooled(va, len);
      assert PrivateRange(pages, va, len) && !AllWritable(pages, va, len);
    }
  }

  lemma CoveredIsSound(pages: map<nat, PrivatePage>, va: nat, len: nat)
    requires va < VA_SPAN && Covers(va, len) && PrivateRange(pages, va, len)
    ensures AllWritable(pages, va, len)
  {
    hide Writable;
    if va + len < VA_SPAN {
      RangeBelowTop(pages, va, len);
    } else if va >= VA_SPAN / 2 || Extend(va) + len > USIZE_MAX {
      RangeBelowTop(pages, va, len);
    } else if len > 0 {
      forall a | va <= a < va + len ensures Writable(pages, FloorVpn(a)) { assert 0 <= FloorVpn(a) < VPN_SPAN; }
    }
  }

  /** Pages writable exactly where `ensure_private_range` looks: it says yes, though an address of the range is not. */
  lemma Fooled(va: nat, len: nat) returns (pages: map<nat, PrivatePage>)
    requires va < VA_SPAN && !Covers(va, len)
    ensures PrivateRange(pages, va, len) && !AllWritable(pages, va, len)
  {
    var lo, hi := va / PAGE_SIZE, CeilVpn(Extend(va) + len);
    pages := OpenPages(lo, hi);
    assert Extend(va) == va && hi <= VPN_SPAN;
    var a := if hi < VPN_SPAN then VA_SPAN - 1 else VA_SPAN;
    assert FloorVpn(VA_SPAN - 1) == VPN_SPAN - 1 && FloorVpn(VA_SPAN) == 0;
    if hi == VPN_SPAN { PassesTop(va, len); }
    assert va <= a < va + len && !Writable(pages, FloorVpn(a));
  }

  /** A range that reaches the top, and whose end is cut to the last page, goes on past it. */
  lemma PassesTop(va: nat, len: nat)
    requires va < VA_SPAN / 2 && va + len >= VA_SPAN && CeilVpn(va + len) == VPN_SPAN
    ensures va + len > VA_SPAN
  {
    assert CeilVpn(VA_SPAN) == 0;
  }

  /** Such a range: here no page is checked at all, and the answer is yes. */
  lemma PrivateRangeWraps()
    ensures PrivateRange(map[], 0, VA_SPAN) && !Writable(map[], FloorVpn(0)) && !Covers(0, VA_SPAN)
  {
    assert CeilVpn(VA_SPAN) == 0;
  }

  lemma RangePages(va: nat, len: nat)
    requires 0 < len && va + len < VA_SPAN
    ensures Extend(va) + len <= USIZE_MAX && CeilVpn(Extend(va) + len) == (va + len + PAGE_SIZE - 1) / PAGE_SIZE
  {
    assert (Extend(va) + len) % VA_SPAN == va + len;
  }

  lemma AddressInRange(va: nat, len: nat, a: nat)
    requires va <= a < va + len && va + len < VA_SPAN
    ensures va / PAGE_SIZE <= FloorVpn(a) < (va + len + PAGE_SIZE - 1) / PAGE_SIZE
  {
  }

  lemma PageInRange(va: nat, len: nat, v: nat) returns (a: nat)
    requires va / PAGE_SIZE <= v < (va + len + PAGE_SIZE - 1) / PAGE_SIZE && va + len < VA_SPAN && len > 0
    ensures va <= a < va + len && FloorVpn(a) == v
  {
    a := if v * PAGE_SIZE < va then va else v * PAGE_SIZE;
  }
}
