/**
 Copy-on-write refines private memory: the invariants that reference counts,
 PTE bits and `data_frames` keep in all processes at once, and the proof that
 every kernel step looks like the step of `PrivateMemory`.
 */
module CowRefinement {
  import opened Wrappers
  import opened FrameAllocator
  import opened PM = PrivateMemory
  import opened CopyOnWrite

  // ----- invariants -----

  /** A COW entry is never hardware-writable; a writable or kernel-only entry owns its frame. */
  ghost predicate EntryOk(e: Pte, count: nat) {
    && (e.cow ==> !e.perm.w && e.perm.u)
    && (e.perm.w || !e.perm.u ==> count == 1)
  }

  /** Translations and live data trackers agree, in all processes at once. */
  ghost predicate DataInv(sp: Spaces, trk: Trackers, rc: map<nat, nat>) {
    && (forall pid, v :: Data(pid, v) in trk <==> v in PtOf(sp, pid))
    && (forall pid, v :: v in PtOf(sp, pid) ==>
          var e := PtOf(sp, pid)[v];
          trk[Data(pid, v)] == e.ppn && e.ppn in rc && EntryOk(e, rc[e.ppn]))
  }

  /** Page-table pages are held by exactly their own table. */
  ghost predicate TableInv(tables: map<nat, seq<TableFrame>>, trk: Trackers, rc: map<nat, nat>) {
    && (forall pid, k: nat :: Table(pid, k) in trk <==> k < |TablesOf(tables, pid)|)
    && (forall pid, k: nat :: k < |TablesOf(tables, pid)| ==>
          var p := TablesOf(tables, pid)[k].ppn;
          trk[Table(pid, k)] == p && p in rc && rc[p] == 1)
  }

  ghost predicate MemOk(m: Machine) {
    m.frames.end <= |m.mem| && forall i :: 0 <= i < |m.mem| ==> |m.mem[i]| == PAGE_SIZE
  }

  /** The frame invariants, with `sp` in place of the translations while a page is being mapped. */
  ghost predicate SysFor(b: nat, m: Machine, sp: Spaces) {
    && FramesOk(b, m.frames, m.trk) && MemOk(m)
    && DataInv(sp, m.trk, m.frames.refCounts)
    && TableInv(m.tables, m.trk, m.frames.refCounts)
    && m.spaces.Keys <= m.tables.Keys
  }

  ghost predicate Sys(b: nat, m: Machine) { SysFor(b, m, m.spaces) && Local !in m.trk }

  /** The areas of one space: disjoint, exactly covering the translations, with matching `data_frames`. */
  ghost predicate AreaInv(s: Space) {
    Laid(s.areas) && AllBacked(s.areas, s.pt) && Covered(s.areas, s.pt)
  }

  ghost predicate Laid(areas: seq<Area>) {
    && (forall i :: 0 <= i < |areas| ==> areas[i].lo < areas[i].hi < VPN_SPAN)
    && (forall i, j :: 0 <= i < j < |areas| ==> Apart(areas[i], areas[j]))
  }

  ghost predicate AllBacked(areas: seq<Area>, pt: map<nat, Pte>) {
    forall i :: 0 <= i < |areas| ==> Backed(areas[i], pt)
  }

  ghost predicate Covered(areas: seq<Area>, pt: map<nat, Pte>) {
    forall v :: v in pt ==> InSome(areas, v)
  }

  ghost predicate InSome(areas: seq<Area>, v: nat) {
    exists i :: 0 <= i < |areas| && Between(areas[i].lo, v, areas[i].hi)
  }

  ghost predicate Apart(a: Area, b: Area) { a.hi <= b.lo || b.hi <= a.lo }

  ghost predicate Backed(a: Area, pt: map<nat, Pte>) {
    && (forall v :: v in a.frames <==> Between(a.lo, v, a.hi))
    && (forall v :: v in a.frames ==> v in pt && pt[v].ppn == a.frames[v] && pt[v].Visible() == a.perm)
  }

  /** The whole-kernel invariant; frames are issued from `b` on. */
  ghost predicate Inv(b: nat, m: Machine) {
    Sys(b, m) && forall pid :: pid in m.spaces ==> AreaInv(m.spaces[pid])
  }

  // ----- what each process sees -----

  ghost function PageOf(e: Pte, mem: seq<Page>): PrivatePage {
    PrivatePage(if e.ppn < |mem| then mem[e.ppn] else [], e.Visible())
  }

  ghost function Pages(pt: map<nat, Pte>, mem: seq<Page>): map<nat, PrivatePage> {
    map v | v in pt :: PageOf(pt[v], mem)
  }

  ghost function SpaceView(s: Space, mem: seq<Page>): PrivateSpace {
    PrivateSpace(Pages(s.pt, mem), Ranges(s.areas))
  }

  ghost function View(m: Machine): State {
    State(map pid | pid in m.spaces :: SpaceView(m.spaces[pid], m.mem), m.tables.Keys - m.spaces.Keys)
  }

  /** `m1` continues `m` without freeing or overwriting any live frame. */
  ghost predicate Ext(m: Machine, m1: Machine) {
    && m.frames.refCounts.Keys <= m1.frames.refCounts.Keys
    && |m1.mem| == |m.mem|
    && (forall p :: p in m.frames.refCounts && p < |m.mem| ==> m1.mem[p] == m.mem[p])
  }

  lemma ExtTransitive(m: Machine, m1: Machine, m2: Machine)
    requires Ext(m, m1) && Ext(m1, m2)
    ensures Ext(m, m2)
  {
  }

  /** Live translations look the same after an extension. */
  lemma ExtPages(b: nat, m: Machine, m1: Machine, pid: nat, s: Space)
    requires Sys(b, m) && Ext(m, m1) && pid in m.spaces && s == m.spaces[pid]
    ensures SpaceView(s, m.mem) == SpaceView(s, m1.mem)
  {
    forall v | v in s.pt ensures PageOf(s.pt[v], m.mem) == PageOf(s.pt[v], m1.mem) {
      assert v in PtOf(m.spaces, pid);
    }
  }

  /** What the invariants say about one translation. */
  lemma EntryFacts(b: nat, m: Machine, pid: nat, v: nat, e: Pte)
    requires Sys(b, m) && v in Pt(m, pid) && Pt(m, pid)[v] == e
    ensures pid in m.spaces && v in m.spaces[pid].pt && pid in m.tables
    ensures Data(pid, v) in m.trk && m.trk[Data(pid, v)] == e.ppn
    ensures e.ppn in m.frames.refCounts && EntryOk(e, m.frames.refCounts[e.ppn]) && m.frames.refCounts[e.ppn] > 0
    ensures e.ppn < |m.mem| && |m.mem[e.ppn]| == PAGE_SIZE
  {
  }

  lemma LiveHasTables(b: nat, m: Machine, pid: nat)
    requires Sys(b, m) && pid in m.spaces
    ensures pid in m.tables
  {
  }

  lemma FreeSlot(b: nat, m: Machine, pid: nat, v: nat)
    requires Sys(b, m) && v !in Pt(m, pid)
    ensures Data(pid, v) !in m.trk
  {
  }

  // ----- frames -----

  lemma TakeFrameOk(b: nat, m: Machine, s: Slot)
    requires FramesOk(b, m.frames, m.trk) && MemOk(m) && s !in m.trk
    ensures match TakeFrame(m, s)
            case Ok((m1, p)) =>
              && p !in m.frames.refCounts && p < |m.mem|
              && m1 == m.(frames := m1.frames, mem := m.mem[p := ZeroPage()], trk := m.trk[s := p])
              && m1.frames.refCounts == m.frames.refCounts[p := 1]
              && FramesOk(b, m1.frames, m1.trk) && MemOk(m1) && Ext(m, m1)
            case OutOfMemory => m.frames.Free() == 0
            case Panic => false
  {
    AllocKeeps(b, m.frames, m.trk, s);
  }

  /** Fresh frames for non-data slots leave the data invariant alone. */
  lemma FreshForOther(sp: Spaces, trk: Trackers, rc: map<nat, nat>, s: Slot, p: nat)
    requires DataInv(sp, trk, rc) && !s.Data? && p !in rc
    ensures DataInv(sp, trk[s := p], rc[p := 1])
  {
  }

  lemma FreshForNonTable(ts: map<nat, seq<TableFrame>>, trk: Trackers, rc: map<nat, nat>, s: Slot, p: nat)
    requires TableInv(ts, trk, rc) && !s.Table? && p !in rc
    ensures TableInv(ts, trk[s := p], rc[p := 1])
  {
  }

  lemma FreshTable(ts: map<nat, seq<TableFrame>>, trk: Trackers, rc: map<nat, nat>, pid: nat, x: Prefix, p: nat)
    requires TableInv(ts, trk, rc) && p !in rc
    ensures TableInv(ts[pid := TablesOf(ts, pid) + [TableFrame(x, p)]], trk[Table(pid, |TablesOf(ts, pid)|) := p],
            rc[p := 1])
  {
    var ts' := ts[pid := TablesOf(ts, pid) + [TableFrame(x, p)]];
    assert forall q :: q != pid ==> TablesOf(ts', q) == TablesOf(ts, q);
  }

  /** Building page tables keeps the frame invariants, for any translations `sp` and for a free local slot. */
  lemma AddTableOk(b: nat, m: Machine, sp: Spaces, pid: nat, x: Prefix)
    requires SysFor(b, m, sp)
    ensures match AddTable(m, pid, x)
            case Ok(m1) =>
              && SysFor(b, m1, sp) && Ext(m, m1) && m1.spaces == m.spaces
                  && m1.tables.Keys == m.tables.Keys + (m1.tables.Keys * {pid})
              && (Local in m1.trk <==> Local in m.trk)
            case OutOfMemory => m.frames.Free() == 0
            case Panic => false
  {
    var ts := TablesOf(m.tables, pid);
    if !HasTable(ts, x) {
      assert Table(pid, |ts|) !in m.trk;
      TakeFrameOk(b, m, Table(pid, |ts|));
      if TakeFrame(m, Table(pid, |ts|)).Ok? {
        var (m1, p) := TakeFrame(m, Table(pid, |ts|)).value;
        FreshForOther(sp, m.trk, m.frames.refCounts, Table(pid, |ts|), p);
        FreshTable(m.tables, m.trk, m.frames.refCounts, pid, x, p);
      }
    }
  }

  lemma AddTablesOk(b: nat, m: Machine, sp: Spaces, pid: nat, v: nat)
    requires SysFor(b, m, sp) && pid in m.tables
    ensures match AddTables(m, pid, v)
            case Ok(m1) =>
              && SysFor(b, m1, sp) && Ext(m, m1) && m1.spaces == m.spaces && m1.tables.Keys == m.tables.Keys
              && (Local in m1.trk <==> Local in m.trk)
            case OutOfMemory => true
            case Panic => false
  {
    hide SysFor, Ext;
    AddTableOk(b, m, sp, pid, Mid(v / 512 / 512));
    if AddTable(m, pid, Mid(v / 512 / 512)).Ok? {
      var m1 := AddTable(m, pid, Mid(v / 512 / 512)).value;
      AddTableOk(b, m1, sp, pid, Low(v / 512 / 512, v / 512 % 512));
      var r := AddTable(m1, pid, Low(v / 512 / 512, v / 512 % 512));
      if r.Ok? { ExtTransitive(m, m1, r.value); }
    }
  }

  lemma MapPteOk(b: nat, m: Machine, pid: nat, v: nat, e: Pte)
    requires pid in m.spaces && v !in m.spaces[pid].pt
    requires SysFor(b, m, SetPte(m, pid, v, e).spaces) && pid in m.tables && Local !in m.trk
    ensures match MapPte(m, pid, v, e)
            case Ok(m1) =>
              && Sys(b, m1) && Ext(m, m1) && m1.tables.Keys == m.tables.Keys
              && m1.spaces == SetPte(m, pid, v, e).spaces
            case OutOfMemory => true
            case Panic => false
  {
    var sp := SetPte(m, pid, v, e).spaces;
    AddTablesOk(b, m, sp, pid, v);
    if AddTables(m, pid, v).Ok? {
      var m1 := AddTables(m, pid, v).value;
      assert SysFor(b, m1, sp) && m1.spaces == m.spaces;
      assert SetPte(m1, pid, v, e).spaces == sp;
    }
  }

  // ----- one page -----

  lemma PtAfterSet(sp: Spaces, pid: nat, v: nat, e: Pte)
    requires pid in sp
    ensures var sp' := sp[pid := Space(sp[pid].pt[v := e], sp[pid].areas)];
            && PtOf(sp', pid) == PtOf(sp, pid)[v := e]
            && forall q :: q != pid ==> PtOf(sp', q) == PtOf(sp, q)
  {
  }

  /** `map_one`: a zeroed private page appears at a free page number. */
  lemma MapOneOk(b: nat, m: Machine, pid: nat, v: nat, perm: Perm)
    requires Sys(b, m) && pid in m.spaces && v !in m.spaces[pid].pt
    ensures match MapOne(m, pid, v, perm)
            case Ok((m1, p)) =>
              && Sys(b, m1) && Ext(m, m1) && m1.tables.Keys == m.tables.Keys
              && m1.spaces == SetPte(m, pid, v, Pte(p, perm, false)).spaces
              && p !in m.frames.refCounts && p < |m1.mem| && m1.mem[p] == ZeroPage()
            case OutOfMemory => true
            case Panic => false
  {
    assert v !in PtOf(m.spaces, pid);
    TakeFrameOk(b, m, Data(pid, v));
    if TakeFrame(m, Data(pid, v)).Ok? {
      var (m1, p) := TakeFrame(m, Data(pid, v)).value;
      var e := Pte(p, perm, false);
      PtAfterSet(m.spaces, pid, v, e);
      FreshForNonTable(m.tables, m.trk, m.frames.refCounts, Data(pid, v), p);
      FreshMapped(m.spaces, m.trk, m.frames.refCounts, pid, v, e);
      assert SetPte(m1, pid, v, e).spaces == SetPte(m, pid, v, e).spaces;
      MapPteOk(b, m1, pid, v, e);
      var r := MapPte(m1, pid, v, e);
      if r.Ok? {
        ExtTransitive(m, m1, r.value);
        assert p in m1.frames.refCounts;
      }
    }
  }

  lemma FreshMapped(sp: Spaces, trk: Trackers, rc: map<nat, nat>, pid: nat, v: nat, e: Pte)
    requires DataInv(sp, trk, rc) && pid in sp && v !in sp[pid].pt && e.ppn !in rc && EntryOk(e, 1)
    ensures DataInv(sp[pid := Space(sp[pid].pt[v := e], sp[pid].areas)], trk[Data(pid, v) := e.ppn], rc[e.ppn := 1])
  {
    PtAfterSet(sp, pid, v, e);
  }

  /** Rewriting the bits of one entry. */
  lemma Remarked(sp: Spaces, trk: Trackers, rc: map<nat, nat>, pid: nat, v: nat, e: Pte)
    requires DataInv(sp, trk, rc) && pid in sp && v in PtOf(sp, pid)
    requires e.ppn == PtOf(sp, pid)[v].ppn && EntryOk(e, rc[e.ppn])
    ensures DataInv(sp[pid := Space(sp[pid].pt[v := e], sp[pid].areas)], trk, rc)
  {
    PtAfterSet(sp, pid, v, e);
  }

  /** A second holder of a user page that nobody can write. */
  lemma HolderAdded(sp: Spaces, trk: Trackers, rc: map<nat, nat>, p: nat, c: nat, v: nat, e: Pte)
    requires DataInv(sp, trk, rc) && Counted(rc, trk) && c in sp
    requires v in PtOf(sp, p) && v !in PtOf(sp, c) && PtOf(sp, p)[v] == e && !e.perm.w && e.perm.u
    ensures DataInv(sp[c := Space(sp[c].pt[v := e], sp[c].areas)], trk[Data(c, v) := e.ppn], rc[e.ppn := rc[e.ppn] + 1])
  {
    PtAfterSet(sp, c, v, e);
    if rc[e.ppn] == 1 { Exclusive(rc, trk, Data(p, v)); }
    forall q, w | w in PtOf(sp, q) && PtOf(sp, q)[w].ppn == e.ppn
      ensures EntryOk(PtOf(sp, q)[w], rc[e.ppn] + 1)
    {
      assert trk[Data(q, w)] == e.ppn;
    }
  }

  lemma TablesKeptBySharing(ts: map<nat, seq<TableFrame>>, trk: Trackers, rc: map<nat, nat>, s: Slot, t: Slot)
    requires TableInv(ts, trk, rc) && Counted(rc, trk)
    requires s in trk && !s.Table? && !t.Table?
    ensures TableInv(ts, trk[t := trk[s]], rc[trk[s] := rc[trk[s]] + 1])
  {
    if rc[trk[s]] == 1 { Exclusive(rc, trk, s); }
  }

  lemma SharePageOk(b: nat, m: Machine, p: nat, c: nat, v: nat)
    requires Sys(b, m) && p in m.spaces && c in m.spaces && p != c
    requires v in Pt(m, p) && v !in Pt(m, c) && Pt(m, p)[v].perm.u
    ensures var e := Pt(m, p)[v];
            match SharePage(m, p, c, v, e.ppn)
            case Ok(m1) =>
              && Sys(b, m1) && Ext(m, m1) && m1.tables.Keys == m.tables.Keys
              && m1.spaces == SetPte(SetPte(m, p, v, Shared(e)), c, v, Shared(e)).spaces
            case OutOfMemory => true
            case Panic => false
  {
    hide SysFor;
    var e := Pt(m, p)[v];
    EntryFacts(b, m, p, v, e);
    LiveHasTables(b, m, c);
    var m1 := m.(frames := m.frames.AddRef(e.ppn).value, trk := m.trk[Data(c, v) := e.ppn]);
    SharingPrepared(b, m, p, c, v, m1, SetPte(m1, p, v, Shared(e)));
    MarkingOk(m1, p, v);
    MapPteOk(b, SetPte(m1, p, v, Shared(e)), c, v, Shared(e));
  }

  /** The machine just before `SharePage` maps the child's entry is ready for it. */
  lemma SharingPrepared(b: nat, m: Machine, p: nat, c: nat, v: nat, m1: Machine, m2: Machine)
    requires Sys(b, m) && p in m.spaces && c in m.spaces && p != c
    requires v in Pt(m, p) && v !in Pt(m, c) && Pt(m, p)[v].perm.u && m.frames.AddRef(Pt(m, p)[v].ppn).Ok?
    requires m1 == m.(frames := m.frames.AddRef(Pt(m, p)[v].ppn).value, trk := m.trk[Data(c, v) := Pt(m, p)[v].ppn])
    requires m2 == SetPte(m1, p, v, Shared(Pt(m, p)[v]))
    ensures SysFor(b, m2, SetPte(m2, c, v, Shared(Pt(m, p)[v])).spaces)
  {
    hide Counted, Partition, DataInv, TableInv;
    var e, rc := Pt(m, p)[v], m.frames.refCounts;
    EntryFacts(b, m, p, v, e);
    FreeSlot(b, m, c, v);
    PtAfterSet(m.spaces, p, v, Shared(e));
    AddRefKeeps(b, m.frames, m.trk, e.ppn, Data(c, v));
    Remarked(m.spaces, m.trk, rc, p, v, Shared(e));
    HolderAdded(m2.spaces, m.trk, rc, p, c, v, Shared(e));
    TablesKeptBySharing(m.tables, m.trk, rc, Data(p, v), Data(c, v));
  }

  /** `mark_cow` succeeds on what `from_existed_user_cow` gives it, and rewrites one entry. */
  lemma MarkingOk(m: Machine, p: nat, v: nat)
    requires p in m.spaces && v in Pt(m, p) && (Pt(m, p)[v].cow ==> !Pt(m, p)[v].perm.w)
    ensures var e := Pt(m, p)[v];
            if e.perm.w || e.cow then MarkCow(m, p, v) == Ok(SetPte(m, p, v, Shared(e)))
            else SetPte(m, p, v, Shared(e)) == m
  {
    var e := Pt(m, p)[v];
    if !(e.perm.w || e.cow) {
      assert m.spaces[p].pt[v := e] == m.spaces[p].pt;
      assert m.spaces[p := Space(m.spaces[p].pt, m.spaces[p].areas)] == m.spaces;
    }
  }

  /** Kernel-only pages are copied: the child gets the parent's bytes in a frame of its own. */
  lemma CopyPageOk(b: nat, m: Machine, p: nat, c: nat, v: nat, perm: Perm)
    requires Sys(b, m) && p in m.spaces && c in m.spaces && p != c && v in Pt(m, p) && v !in Pt(m, c)
    ensures match CopyPage(m, p, c, v, perm)
            case Ok((m1, n)) =>
              && Sys(b, m1) && Ext(m, m1) && m1.tables.Keys == m.tables.Keys
              && m1.spaces == SetPte(m, c, v, Pte(n, perm, false)).spaces
              && Pt(m, p)[v].ppn < |m.mem| && n < |m1.mem| && m1.mem[n] == m.mem[Pt(m, p)[v].ppn]
            case OutOfMemory => true
            case Panic => false
  {
    var src := Pt(m, p)[v].ppn;
    assert src in m.frames.refCounts && src < |m.mem|;
    MapOneOk(b, m, c, v, perm);
    if MapOne(m, c, v, perm).Ok? {
      var (m1, n) := MapOne(m, c, v, perm).value;
      CopyKeepsSys(b, m1, n, m1.mem[src]);
    }
  }

  lemma CopyKeepsSys(b: nat, m: Machine, n: nat, page: Page)
    requires Sys(b, m) && n < |m.mem| && |page| == PAGE_SIZE
    ensures Sys(b, m.(mem := m.mem[n := page]))
  {
  }

  // ----- unmapping -----

  lemma Released(sp: Spaces, trk: Trackers, rc: map<nat, nat>, pid: nat, v: nat)
    requires DataInv(sp, trk, rc) && Counted(rc, trk) && pid in sp && v in PtOf(sp, pid)
    ensures var n := PtOf(sp, pid)[v].ppn;
            DataInv(sp[pid := Space(sp[pid].pt - {v}, sp[pid].areas)], trk - {Data(pid, v)},
                    if rc[n] == 1 then rc - {n} else rc[n := rc[n] - 1])
  {
    var e := PtOf(sp, pid)[v];
    var sp' := sp[pid := Space(sp[pid].pt - {v}, sp[pid].areas)];
    assert PtOf(sp', pid) == PtOf(sp, pid) - {v};
    assert forall q :: q != pid ==> PtOf(sp', q) == PtOf(sp, q);
    if rc[e.ppn] == 1 { Exclusive(rc, trk, Data(pid, v)); }
  }

  lemma TablesKeptByRelease(ts: map<nat, seq<TableFrame>>, trk: Trackers, rc: map<nat, nat>, s: Slot)
    requires TableInv(ts, trk, rc) && Counted(rc, trk) && s in trk && !s.Table?
    ensures TableInv(ts, trk - {s}, if rc[trk[s]] == 1 then rc - {trk[s]} else rc[trk[s] := rc[trk[s]] - 1])
  {
    if rc[trk[s]] == 1 { Exclusive(rc, trk, s); }
  }

  /** `unmap_one`: one page disappears, its reference is given back, nothing else changes. */
  lemma UnmapOneOk(b: nat, m: Machine, pid: nat, a: Area, v: nat)
    requires Sys(b, m) && v in Pt(m, pid) && v in a.frames && a.frames[v] == Pt(m, pid)[v].ppn
    ensures UnmapOne(m, pid, a, v).Ok?
    ensures var m1 := UnmapOne(m, pid, a, v).value;
            && Sys(b, m1) && m1.mem == m.mem && m1.tables == m.tables
            && m1.spaces == m.spaces[pid := Space(m.spaces[pid].pt - {v}, m.spaces[pid].areas)]
  {
    hide Counted, Partition, DataInv, TableInv;
    var rc := m.frames.refCounts;
    EntryFacts(b, m, pid, v, Pt(m, pid)[v]);
    DeallocKeeps(b, m.frames, m.trk, Data(pid, v));
    Released(m.spaces, m.trk, rc, pid, v);
    TablesKeptByRelease(m.tables, m.trk, rc, Data(pid, v));
  }

  // ----- write faults -----

  /** A handled fault: only the entry of `v` changed, to a private writable page with the same bytes. */
  ghost predicate Repaged(m: Machine, m1: Machine, pid: nat, v: nat) {
    && m1.tables == m.tables && pid in m.spaces && v in m.spaces[pid].pt
    && pid in m1.spaces && m1.spaces == m.spaces[pid := m1.spaces[pid]]
    && |m1.mem| == |m.mem| && (forall p :: p in m.frames.refCounts && p < |m.mem| ==> m1.mem[p] == m.mem[p])
    && var e, pt1 := m.spaces[pid].pt[v], m1.spaces[pid].pt;
    && v in pt1 && pt1 == m.spaces[pid].pt[v := pt1[v]]
    && pt1[v].perm == e.perm.(w := true) && !pt1[v].cow
    && pt1[v].ppn < |m1.mem| && e.ppn < |m.mem| && m1.mem[pt1[v].ppn] == m.mem[e.ppn]
    && Ranges(m1.spaces[pid].areas) == Ranges(m.spaces[pid].areas)
  }

  ghost predicate FaultHandled(b: nat, m: Machine, m1: Machine, pid: nat, v: nat) {
    Sys(b, m1) && Repaged(m, m1, pid, v) && AreaInv(m1.spaces[pid])
  }

  lemma InPlaceOk(b: nat, m: Machine, pid: nat, v: nat, e: Pte, m1: Machine)
    requires Sys(b, m) && v in Pt(m, pid) && Pt(m, pid)[v] == e && e.cow && AreaInv(m.spaces[pid])
    requires e.ppn in m.frames.refCounts && m.frames.refCounts[e.ppn] == 1
    requires m1 == SetPte(m, pid, v, Resolved(e, e.ppn))
    ensures FaultHandled(b, m, m1, pid, v)
  {
    hide AreaInv, DataInv, TableInv, FramesOk;
    EntryFacts(b, m, pid, v, e);
    Remarked(m.spaces, m.trk, m.frames.refCounts, pid, v, Resolved(e, e.ppn));
    AreasRemarked(m.spaces[pid], v, Resolved(e, e.ppn));
    assert Repaged(m, m1, pid, v) by {
      hide Sys;
      assert m1.spaces == m.spaces[pid := m1.spaces[pid]];
    }
  }

  lemma BackedRemarked(a: Area, pt: map<nat, Pte>, v: nat, e: Pte)
    requires Backed(a, pt) && v in pt && e.ppn == pt[v].ppn && e.Visible() == pt[v].Visible()
    ensures Backed(a, pt[v := e])
  {
  }

  /** Same frame, same promise: the areas still fit. */
  lemma AreasRemarked(s: Space, v: nat, e: Pte)
    requires AreaInv(s) && v in s.pt && e.ppn == s.pt[v].ppn && e.Visible() == s.pt[v].Visible()
    ensures AreaInv(Space(s.pt[v := e], s.areas))
  {
    hide Laid, InSome, Backed;
    forall i | 0 <= i < |s.areas| ensures Backed(s.areas[i], s.pt[v := e]) {
      BackedRemarked(s.areas[i], s.pt, v, e);
    }
  }

  lemma BackedElsewhere(a: Area, pt: map<nat, Pte>, v: nat, e: Pte)
    requires Backed(a, pt) && !Between(a.lo, v, a.hi)
    ensures Backed(a, pt[v := e])
  {
  }

  lemma BackedMoved(a: Area, pt: map<nat, Pte>, v: nat, e: Pte)
    requires Backed(a, pt) && Between(a.lo, v, a.hi) && e.Visible() == a.perm
    ensures Backed(a.(frames := a.frames[v := e.ppn]), pt[v := e])
  {
  }

  /** The page moves to another frame in the entry and in `data_frames` of its area. */
  lemma AreasMoved(s: Space, v: nat, e: Pte, i: nat)
    requires AreaInv(s) && v in s.pt && e.Visible() == s.pt[v].Visible()
    requires i < |s.areas| && Between(s.areas[i].lo, v, s.areas[i].hi)
    ensures v in s.areas[i].frames && s.areas[i].frames[v] == s.pt[v].ppn
    ensures var areas' := s.areas[i := s.areas[i].(frames := s.areas[i].frames[v := e.ppn])];
            AreaInv(Space(s.pt[v := e], areas')) && Ranges(areas') == Ranges(s.areas)
  {
    hide Laid, Covered, Backed;
    InAreas(s, v, i);
    var areas' := s.areas[i := s.areas[i].(frames := s.areas[i].frames[v := e.ppn])];
    forall j | 0 <= j < |areas'| ensures Backed(areas'[j], s.pt[v := e]) {
      assert Backed(s.areas[j], s.pt);
      if j == i {
        BackedMoved(s.areas[i], s.pt, v, e);
      } else {
        BackedElsewhere(s.areas[j], s.pt, v, e);
      }
    }
    SameShape(s.areas, areas', s.pt, s.pt[v := e]);
  }

  /** A page lies in at most one area, whose `data_frames` and permission speak for it. */
  lemma InAreas(s: Space, v: nat, i: nat)
    requires Laid(s.areas) && AllBacked(s.areas, s.pt) && i < |s.areas| && Between(s.areas[i].lo, v, s.areas[i].hi)
    ensures v in s.areas[i].frames && v in s.pt
    ensures s.pt[v].Visible() == s.areas[i].perm && s.areas[i].frames[v] == s.pt[v].ppn
    ensures forall j :: 0 <= j < |s.areas| && j != i ==> !Between(s.areas[j].lo, v, s.areas[j].hi)
  {
    assert Backed(s.areas[i], s.pt);
    forall j | 0 <= j < |s.areas| && j != i ensures !Between(s.areas[j].lo, v, s.areas[j].hi) {
      assert if j < i then Apart(s.areas[j], s.areas[i]) else Apart(s.areas[i], s.areas[j]);
    }
  }

  /** Areas of the same shape lie and cover alike. */
  lemma SameShape(areas: seq<Area>, areas': seq<Area>, pt: map<nat, Pte>, pt': map<nat, Pte>)
    requires |areas| == |areas'| && forall i :: 0 <= i < |areas| ==> areas[i].(frames := areas'[i].frames) == areas'[i]
    requires pt.Keys == pt'.Keys && Laid(areas) && Covered(areas, pt)
    ensures Laid(areas') && Covered(areas', pt') && Ranges(areas) == Ranges(areas')
  {
    forall i, j | 0 <= i < j < |areas| ensures Apart(areas'[i], areas'[j]) {
      assert Apart(areas[i], areas[j]);
    }
    forall v | v in pt' ensures InSome(areas', v) {
      assert InSome(areas, v);
      var i :| 0 <= i < |areas| && Between(areas[i].lo, v, areas[i].hi);
      assert Between(areas'[i].lo, v, areas'[i].hi);
    }
  }

  lemma DataMoved(sp: Spaces, trk: Trackers, rc: map<nat, nat>, pid: nat, v: nat, n: nat, areas: seq<Area>)
    requires DataInv(sp, trk, rc) && pid in sp && v in PtOf(sp, pid) && rc[PtOf(sp, pid)[v].ppn] > 1 && n !in rc
    requires PtOf(sp, pid)[v].cow
    ensures var e := PtOf(sp, pid)[v];
            DataInv(sp[pid := Space(sp[pid].pt[v := Resolved(e, n)], areas)],
                    trk[Data(pid, v) := n], rc[n := 1][e.ppn := rc[e.ppn] - 1])
  {
    var e := PtOf(sp, pid)[v];
    var sp' := sp[pid := Space(sp[pid].pt[v := Resolved(e, n)], areas)];
    assert PtOf(sp', pid) == PtOf(sp, pid)[v := Resolved(e, n)];
    assert forall q :: q != pid ==> PtOf(sp', q) == PtOf(sp, q);
  }

  lemma TablesKeptByMove(ts: map<nat, seq<TableFrame>>, trk: Trackers, rc: map<nat, nat>, s: Slot, n: nat)
    requires TableInv(ts, trk, rc) && s in trk && !s.Table? && trk[s] in rc && rc[trk[s]] > 1 && n !in rc
    ensures TableInv(ts, trk[s := n], rc[n := 1][trk[s] := rc[trk[s]] - 1])
  {
  }

  /** The allocator across the slow path: allocate to a local, exchange with the page's slot, drop the local. */
  lemma FramesMoved(b: nat, f: Frames, trk: Trackers, s: Slot)
    requires FramesOk(b, f, trk) && Local !in trk && s in trk && s != Local
    requires trk[s] in f.refCounts && f.refCounts[trk[s]] > 1
    ensures match f.Alloc()
            case Ok((n, f1)) =>
              && f1.Dealloc(trk[s]).Ok?
              && var f2 := f1.Dealloc(trk[s]).value;
              && FramesOk(b, f2, trk[s := n]) && f2.end == f.end
              && f2.refCounts == f.refCounts[n := 1][trk[s] := f.refCounts[trk[s]] - 1]
            case _ => true
  {
    hide Partition, Counted;
    AllocKeeps(b, f, trk, Local);
    if f.Alloc().Ok? {
      var (n, f1) := f.Alloc().value;
      var trk1 := trk[Local := n];
      CountedAfterExchange(f1.refCounts, trk1, s, Local);
      var trk2 := trk1[s := n][Local := trk[s]];
      assert trk1[s := trk1[Local]][Local := trk1[s]] == trk2;
      DeallocKeeps(b, f1, trk2, Local);
      assert trk2 - {Local} == trk[s := n];
    }
  }

  /** The machine after the slow path. */
  ghost function Copied(m: Machine, pid: nat, v: nat, e: Pte, n: nat, f: Frames, areas: seq<Area>): Machine
    requires pid in m.spaces && e.ppn < |m.mem| && n < |m.mem|
  {
    m.(frames := f, mem := m.mem[n := m.mem[e.ppn]], trk := m.trk[Data(pid, v) := n],
       spaces := m.spaces[pid := Space(m.spaces[pid].pt[v := Resolved(e, n)], areas)])
  }

  lemma CopyFaultValue(m: Machine, pid: nat, v: nat, e: Pte, n: nat, f1: Frames, f2: Frames, i: nat)
    requires v in Pt(m, pid) && Pt(m, pid)[v] == e && e.ppn < |m.mem| && Data(pid, v) in m.trk && Local !in m.trk
    requires m.frames.Alloc() == Ok((n, f1)) && n < |m.mem| && n != e.ppn && m.trk[Data(pid, v)] == e.ppn
    requires FindArea(m.spaces[pid].areas, v, 0) == Some(i) && v in m.spaces[pid].areas[i].frames
    requires m.spaces[pid].areas[i].frames[v] == e.ppn
    requires f1.Dealloc(e.ppn) == Ok(f2)
    ensures var areas := m.spaces[pid].areas;
            var areas' := areas[i := areas[i].(frames := areas[i].frames[v := n])];
            CopyFault(m, pid, v) == Ok((Copied(m, pid, v, e, n, f2, areas'), true))
  {
    var m1 := m.(frames := f1, mem := m.mem[n := ZeroPage()], trk := m.trk[Local := n]);
    assert TakeFrame(m, Local) == Ok((m1, n));
    var m2 := m1.(mem := m1.mem[n := m1.mem[e.ppn]]);
    var areas := m.spaces[pid].areas;
    var areas' := areas[i := areas[i].(frames := areas[i].frames[v := n])];
    var m3 := SetAreas(m2, pid, areas').(trk := m2.trk[Data(pid, v) := n][Local := e.ppn]);
    var m4 := SetPte(m3, pid, v, Resolved(e, n));
    assert m4.trk - {Local} == m.trk[Data(pid, v) := n];
    assert m4.spaces == m.spaces[pid := Space(m.spaces[pid].pt[v := Resolved(e, n)], areas')];
    assert m4.mem == m.mem[n := m.mem[e.ppn]];
    assert DropFrame(m4, e.ppn, Local) == Ok(m4.(frames := f2, trk := m4.trk - {Local}));
  }

  lemma CopiedOk(b: nat, m: Machine, pid: nat, v: nat, e: Pte, n: nat, f: Frames, i: nat)
    requires Sys(b, m) && v in Pt(m, pid) && Pt(m, pid)[v] == e && e.cow && AreaInv(m.spaces[pid])
    requires e.ppn in m.frames.refCounts && m.frames.refCounts[e.ppn] > 1 && e.ppn < |m.mem|
    requires i < |m.spaces[pid].areas| && Between(m.spaces[pid].areas[i].lo, v, m.spaces[pid].areas[i].hi)
    requires n !in m.frames.refCounts && n < |m.mem| && FramesOk(b, f, m.trk[Data(pid, v) := n])
    requires f.end == m.frames.end
    requires f.refCounts == m.frames.refCounts[n := 1][e.ppn := m.frames.refCounts[e.ppn] - 1]
    ensures v in m.spaces[pid].areas[i].frames && m.spaces[pid].areas[i].frames[v] == e.ppn
    ensures var areas := m.spaces[pid].areas;
            var areas' := areas[i := areas[i].(frames := areas[i].frames[v := n])];
            FaultHandled(b, m, Copied(m, pid, v, e, n, f, areas'), pid, v)
  {
    hide AreaInv, DataInv, TableInv, FramesOk;
    EntryFacts(b, m, pid, v, e);
    var rc, areas := m.frames.refCounts, m.spaces[pid].areas;
    AreasMoved(m.spaces[pid], v, Resolved(e, n), i);
    var areas' := areas[i := areas[i].(frames := areas[i].frames[v := n])];
    DataMoved(m.spaces, m.trk, rc, pid, v, n, areas');
    TablesKeptByMove(m.tables, m.trk, rc, Data(pid, v), n);
    var m1 := Copied(m, pid, v, e, n, f, areas');
    assert Repaged(m, m1, pid, v) by {
      hide Sys;
      assert m1.spaces == m.spaces[pid := m1.spaces[pid]];
    }
  }

  /** The page moved to a frame nobody held, which now holds its bytes; the old frame lost one reference. */
  ghost predicate ToFresh(m: Machine, m1: Machine, pid: nat, v: nat) {
    && v in Pt(m, pid) && v in Pt(m1, pid)
    && var was, now := Pt(m, pid)[v].ppn, Pt(m1, pid)[v].ppn;
    && was in m.frames.refCounts && m.frames.refCounts[was] > 1 && now !in m.frames.refCounts
    && m1.frames.refCounts == m.frames.refCounts[now := 1][was := m.frames.refCounts[was] - 1]
    && m1.frames.Free() == m.frames.Free() - 1 && m1.frames.end == m.frames.end
    && was < |m.mem| && now < |m.mem| && m1.mem == m.mem[now := m.mem[was]]
  }

  lemma CopyFaultOk(b: nat, m: Machine, pid: nat, v: nat, e: Pte)
    requires Sys(b, m) && v in Pt(m, pid) && Pt(m, pid)[v] == e && e.cow && AreaInv(m.spaces[pid])
    requires e.ppn in m.frames.refCounts && m.frames.refCounts[e.ppn] > 1
    ensures match CopyFault(m, pid, v)
            case Ok((m1, done)) => done && FaultHandled(b, m, m1, pid, v) && ToFresh(m, m1, pid, v)
            case OutOfMemory => m.frames.Free() == 0
            case Panic => false
  {
    assert InSome(m.spaces[pid].areas, v);
    var i := FindArea(m.spaces[pid].areas, v, 0).value;
    hide FaultHandled, AreaInv, DataInv, TableInv, FramesOk, ToFresh;
    EntryFacts(b, m, pid, v, e);
    AllocKeeps(b, m.frames, m.trk, Local);
    FramesMoved(b, m.frames, m.trk, Data(pid, v));
    if m.frames.Alloc().Ok? {
      var (n, f1) := m.frames.Alloc().value;
      var f2 := f1.Dealloc(e.ppn).value;
      CopiedOk(b, m, pid, v, e, n, f2, i);
      CopyFaultValue(m, pid, v, e, n, f1, f2, i);
      CopiedToFresh(m, pid, v, e, n, f2, i);
    }
  }

  lemma CopiedToFresh(m: Machine, pid: nat, v: nat, e: Pte, n: nat, f: Frames, i: nat)
    requires v in Pt(m, pid) && Pt(m, pid)[v] == e && e.ppn in m.frames.refCounts && m.frames.refCounts[e.ppn] > 1
    requires e.ppn < |m.mem| && n !in m.frames.refCounts && n < |m.mem| && i < |m.spaces[pid].areas|
    requires f.refCounts == m.frames.refCounts[n := 1][e.ppn := m.frames.refCounts[e.ppn] - 1]
    requires f.Free() == m.frames.Free() - 1 && f.end == m.frames.end
    ensures var areas := m.spaces[pid].areas;
            var areas' := areas[i := areas[i].(frames := areas[i].frames[v := n])];
            ToFresh(m, Copied(m, pid, v, e, n, f, areas'), pid, v)
  {
  }

  /** `handle_cow_fault` answers whether the page is a COW user page.  If so, count 1 resolves in place and a higher
      count moves the page to a fresh copy, for which it needs one free frame. */
  lemma HandleCowFaultOk(b: nat, m: Machine, pid: nat, v: nat)
    requires Inv(b, m)
    ensures match HandleCowFault(m, pid, v)
            case Ok((m1, done)) =>
              && done == (v in Pt(m, pid) && Pt(m, pid)[v].cow)
              && (done ==> FaultHandled(b, m, m1, pid, v)) && (!done ==> m1 == m)
              && (done ==>
                   var e := Pt(m, pid)[v];
                   && e.ppn in m.frames.refCounts && pid in m.spaces
                   && if m.frames.refCounts[e.ppn] == 1 then m1 == SetPte(m, pid, v, Resolved(e, e.ppn))
                       else ToFresh(m, m1, pid, v))
            case OutOfMemory =>
              && m.frames.Free() == 0 && v in Pt(m, pid) && Pt(m, pid)[v].cow
              && Pt(m, pid)[v].ppn in m.frames.refCounts && m.frames.refCounts[Pt(m, pid)[v].ppn] > 1
            case Panic => false
  {
    if v in Pt(m, pid) && Pt(m, pid)[v].cow {
      var e := Pt(m, pid)[v];
      assert e.ppn in m.frames.refCounts && EntryOk(e, m.frames.refCounts[e.ppn]);
      assert m.frames.refCounts[e.ppn] > 0;
      assert AreaInv(m.spaces[pid]);
      hide FaultHandled;
      if m.frames.refCounts[e.ppn] == 1 {
        InPlaceOk(b, m, pid, v, e, SetPte(m, pid, v, Resolved(e, e.ppn)));
      } else {
        CopyFaultOk(b, m, pid, v, e);
      }
    }
  }

  // ----- mapping an area -----

  /** Pages `[lo, v)` of a new area are mapped to zeroed frames of their own, on top of `m0`. */
  ghost predicate ZeroMapped(m0: Machine, m: Machine, pid: nat, a: Area, v: nat) {
    && pid in m0.spaces && pid in m.spaces
    && m.spaces == m0.spaces[pid := Space(m.spaces[pid].pt, m0.spaces[pid].areas)]
    && m.tables.Keys == m0.tables.Keys && Ext(m0, m)
    && (forall w :: w in a.frames <==> Between(a.lo, w, v))
    && (forall w :: w in Pt(m, pid) <==> w in Pt(m0, pid) || w in a.frames)
    && (forall w :: w in Pt(m0, pid) ==> Pt(m, pid)[w] == Pt(m0, pid)[w])
    && (forall w :: w in a.frames ==>
          && Pt(m, pid)[w] == Pte(a.frames[w], a.perm, false)
          && a.frames[w] in m.frames.refCounts && a.frames[w] < |m.mem| && m.mem[a.frames[w]] == ZeroPage())
  }

  lemma ZeroMappedStep(b: nat, m0: Machine, m: Machine, m1: Machine, pid: nat, a: Area, v: nat, p: nat)
    requires Sys(b, m1) && ZeroMapped(m0, m, pid, a, v) && a.lo <= v && v !in Pt(m, pid)
    requires Ext(m, m1) && m1.tables.Keys == m.tables.Keys
    requires m1.spaces == SetPte(m, pid, v, Pte(p, a.perm, false)).spaces
    requires p < |m1.mem| && m1.mem[p] == ZeroPage()
    ensures ZeroMapped(m0, m1, pid, a.(frames := a.frames[v := p]), v + 1)
  {
    hide Sys;
    EntryFacts(b, m1, pid, v, Pte(p, a.perm, false));
    ExtTransitive(m0, m, m1);
    assert forall w :: Between(a.lo, w, v + 1) <==> Between(a.lo, w, v) || w == v;
  }

  lemma {:induction false} MapPagesOk(b: nat, m0: Machine, m: Machine, pid: nat, a: Area, v: nat)
    requires Sys(b, m) && ZeroMapped(m0, m, pid, a, v) && a.lo <= v <= a.hi
    requires forall w :: Between(a.lo, w, a.hi) ==> w !in Pt(m0, pid)
    ensures match MapPages(m, pid, a, v)
            case Ok((m1, a1)) =>
              && Sys(b, m1) && a1 == a.(frames := a1.frames) && ZeroMapped(m0, m1, pid, a1, a.hi)
            case OutOfMemory => true
            case Panic => false
    decreases a.hi - v
  {
    if v < a.hi {
      assert Between(a.lo, v, a.hi) && !Between(a.lo, v, v);
      assert v !in Pt(m, pid);
      hide Sys, ZeroMapped;
      MapOneOk(b, m, pid, v, a.perm);
      if MapOne(m, pid, v, a.perm).Ok? {
        var (m1, p) := MapOne(m, pid, v, a.perm).value;
        ZeroMappedStep(b, m0, m, m1, pid, a, v, p);
        MapPagesOk(b, m0, m1, pid, a.(frames := a.frames[v := p]), v + 1);
      }
    }
  }

  lemma SysAreas(b: nat, m: Machine, pid: nat, areas: seq<Area>)
    requires Sys(b, m) && pid in m.spaces
    ensures Sys(b, SetAreas(m, pid, areas))
  {
    var sp := SetAreas(m, pid, areas).spaces;
    assert forall q :: PtOf(sp, q) == PtOf(m.spaces, q);
  }

  lemma FreeRange(s: Space, lo: nat, hi: nat)
    requires AreaInv(s) && Insertable(Ranges(s.areas), lo, hi)
    ensures forall w :: Between(lo, w, hi) ==> w !in s.pt
    ensures forall i :: 0 <= i < |s.areas| ==> hi <= s.areas[i].lo || s.areas[i].hi <= lo
  {
    forall i | 0 <= i < |s.areas| ensures hi <= s.areas[i].lo || s.areas[i].hi <= lo {
      assert Ranges(s.areas)[i].lo == s.areas[i].lo;
    }
    forall w | w in s.pt ensures !Between(lo, w, hi) {
      assert InSome(s.areas, w);
    }
  }

  lemma AreasPushed(s: Space, pt: map<nat, Pte>, a: Area)
    requires AreaInv(s) && Backed(a, pt) && a.lo < a.hi < VPN_SPAN
    requires forall i :: 0 <= i < |s.areas| ==> Apart(s.areas[i], a)
    requires forall w :: w in s.pt ==> w in pt && pt[w] == s.pt[w]
    requires forall w :: w in pt ==> w in s.pt || Between(a.lo, w, a.hi)
    ensures AreaInv(Space(pt, s.areas + [a]))
  {
    hide Backed, InSome;
    var areas' := s.areas + [a];
    forall i | 0 <= i < |areas'| ensures Backed(areas'[i], pt) {
      if i < |s.areas| { BackedGrown(s.areas[i], s.pt, pt); }
    }
    forall w | w in pt ensures InSome(areas', w) {
      InPushed(s.areas, a, w);
    }
  }

  lemma BackedGrown(a: Area, pt: map<nat, Pte>, pt': map<nat, Pte>)
    requires Backed(a, pt) && forall w :: w in pt ==> w in pt' && pt'[w] == pt[w]
    ensures Backed(a, pt')
  {
  }

  lemma InPushed(areas: seq<Area>, a: Area, w: nat)
    ensures InSome(areas + [a], w) <==> InSome(areas, w) || Between(a.lo, w, a.hi)
  {
    var areas' := areas + [a];
    assert areas'[|areas|] == a;
    if InSome(areas, w) {
      var i :| 0 <= i < |areas| && Between(areas[i].lo, w, areas[i].hi);
      assert areas'[i] == areas[i];
    }
  }

  /** The new area, as the process sees it. */
  lemma ZeroMappedView(b: nat, m0: Machine, m: Machine, pid: nat, a: Area)
    requires Sys(b, m0) && ZeroMapped(m0, m, pid, a, a.hi) && a.lo <= a.hi
    ensures Pages(Pt(m, pid), m.mem) == AddZeroPages(Pages(Pt(m0, pid), m0.mem), a.lo, a.hi, a.perm)
  {
    hide Sys;
    ExtPages(b, m0, m, pid, m0.spaces[pid]);
    assert Pages(Pt(m0, pid), m0.mem) == Pages(Pt(m0, pid), m.mem);
    forall w | w in Pt(m, pid)
      ensures PageOf(Pt(m, pid)[w], m.mem) == if Between(a.lo, w, a.hi) then PrivatePage(ZeroPage(), a.perm)
              else PageOf(Pt(m0, pid)[w], m.mem)
    {
    }
    PagesAdded(Pt(m0, pid), Pt(m, pid), m.mem, a.lo, a.hi, a.perm);
  }

  lemma PagesAdded(pt0: map<nat, Pte>, pt: map<nat, Pte>, mem: seq<Page>, lo: nat, hi: nat, perm: Perm)
    requires lo <= hi && forall w :: w in pt <==> w in pt0 || Between(lo, w, hi)
    requires forall w :: w in pt ==>
              PageOf(pt[w], mem) == if Between(lo, w, hi) then PrivatePage(ZeroPage(), perm) else PageOf(pt0[w], mem)
    ensures Pages(pt, mem) == AddZeroPages(Pages(pt0, mem), lo, hi, perm)
  {
    hide PageOf;
    var l, r := Pages(pt, mem), AddZeroPages(Pages(pt0, mem), lo, hi, perm);
    assert forall w :: w in l <==> w in r;
  }

  /** Only `pid` looks different, as `ps`. */
  ghost predicate ViewChanged(m: Machine, m1: Machine, pid: nat, ps: PrivateSpace) {
    View(m1) == State(View(m).spaces[pid := ps], View(m).zombies)
  }

  lemma OthersUnchanged(b: nat, m: Machine, m1: Machine, pid: nat, s: Space)
    requires Sys(b, m) && Ext(m, m1) && pid in m.spaces && m1.spaces == m.spaces[pid := s]
    requires m1.tables.Keys == m.tables.Keys
    ensures ViewChanged(m, m1, pid, SpaceView(s, m1.mem))
  {
    forall q | q in m.spaces && q != pid ensures SpaceView(m.spaces[q], m.mem) == SpaceView(m1.spaces[q], m1.mem) {
      ExtPages(b, m, m1, q, m.spaces[q]);
    }
    assert View(m1).spaces == View(m).spaces[pid := SpaceView(s, m1.mem)];
  }

  /** `insert_framed_area` on a free range: the process gains zeroed pages, nobody else notices. */
  lemma InsertFramedOk(b: nat, m: Machine, pid: nat, lo: nat, hi: nat, perm: Perm)
    requires Inv(b, m) && pid in m.spaces && Insertable(Ranges(m.spaces[pid].areas), lo, hi)
    ensures match InsertFramed(m, pid, lo, hi, perm)
            case Ok(m1) =>
              && Inv(b, m1) && ViewChanged(m, m1, pid, Insert(View(m).spaces[pid], lo, hi, perm))
              && AreaAdded(m, m1, pid, lo, hi)
            case OutOfMemory => true
            case Panic => false
  {
    hide Sys, AreaInv;
    var s, a := m.spaces[pid], Area(lo, hi, perm, map[]);
    FreeRange(s, lo, hi);
    assert ZeroMapped(m, m, pid, a, lo) by {
      assert m.spaces == m.spaces[pid := Space(s.pt, s.areas)];
    }
    MapPagesOk(b, m, m, pid, a, lo);
    if MapPages(m, pid, a, lo).Ok? {
      var (m1, a1) := MapPages(m, pid, a, lo).value;
      assert a1.lo == lo && a1.hi == hi && a1.perm == perm;
      InsertedOk(b, m, m1, pid, a1);
      InsertedOnTop(m, m1, pid, a1);
    }
  }

  /** Besides the pages `[lo, hi)` and the last area, nothing was touched. */
  ghost predicate AreaAdded(m: Machine, m1: Machine, pid: nat, lo: nat, hi: nat) {
    && pid in m.spaces && pid in m1.spaces && m1.spaces == m.spaces[pid := m1.spaces[pid]]
    && |m1.spaces[pid].areas| > 0 && m1.spaces[pid].areas[..|m1.spaces[pid].areas| - 1] == m.spaces[pid].areas
    && PtMinus(Pt(m1, pid), lo, hi) == Pt(m, pid)
  }

  lemma InsertedOnTop(m: Machine, m1: Machine, pid: nat, a: Area)
    requires ZeroMapped(m, m1, pid, a, a.hi) && forall w :: Between(a.lo, w, a.hi) ==> w !in Pt(m, pid)
    ensures AreaAdded(m, PushArea(m1, pid, a), pid, a.lo, a.hi)
  {
    hide Ext;
    var l, r := PtMinus(Pt(m1, pid), a.lo, a.hi), Pt(m, pid);
    assert forall w :: w in l <==> w in r;
  }

  lemma InsertedOk(b: nat, m: Machine, m1: Machine, pid: nat, a: Area)
    requires Inv(b, m) && Sys(b, m1) && ZeroMapped(m, m1, pid, a, a.hi) && a.lo < a.hi < VPN_SPAN
    requires forall i :: 0 <= i < |m.spaces[pid].areas| ==>
              a.hi <= m.spaces[pid].areas[i].lo || m.spaces[pid].areas[i].hi <= a.lo
    ensures Inv(b, PushArea(m1, pid, a))
    ensures ViewChanged(m, PushArea(m1, pid, a), pid, Insert(View(m).spaces[pid], a.lo, a.hi, a.perm))
  {
    hide Sys, AreaInv, ViewChanged;
    var s, m2 := m.spaces[pid], PushArea(m1, pid, a);
    SysAreas(b, m1, pid, s.areas + [a]);
    AreasPushed(s, Pt(m1, pid), a);
    ZeroMappedView(b, m, m1, pid, a);
    OthersUnchanged(b, m, m2, pid, m2.spaces[pid]);
    assert Ranges(s.areas + [a]) == Ranges(s.areas) + [Range(a.lo, a.hi, a.perm)];
    assert SpaceView(m2.spaces[pid], m2.mem) == Insert(View(m).spaces[pid], a.lo, a.hi, a.perm);
  }

  // ----- unmapping an area -----

  ghost function PtMinus(pt: map<nat, Pte>, lo: nat, hi: nat): map<nat, Pte> {
    map w | w in pt && !Between(lo, w, hi) :: pt[w]
  }

  /** `MapArea::unmap` gives back every page of the range and nothing else. */
  lemma {:induction false} UnmapPagesOk(b: nat, m: Machine, pid: nat, a: Area, v: nat)
    requires Sys(b, m) && pid in m.spaces
    requires forall w :: Between(v, w, a.hi) ==> w in Pt(m, pid) && w in a.frames && a.frames[w] == Pt(m, pid)[w].ppn
    ensures UnmapPages(m, pid, a, v).Ok?
    ensures var m1 := UnmapPages(m, pid, a, v).value;
            && Sys(b, m1) && m1.mem == m.mem && m1.tables == m.tables
            && m1.spaces == m.spaces[pid := Space(PtMinus(m.spaces[pid].pt, v, a.hi), m.spaces[pid].areas)]
    decreases a.hi - v
  {
    hide Sys;
    var pt := m.spaces[pid].pt;
    if v < a.hi {
      assert Between(v, v, a.hi);
      UnmapOneOk(b, m, pid, a, v);
      var m1 := UnmapOne(m, pid, a, v).value;
      forall w | Between(v + 1, w, a.hi)
          ensures w in Pt(m1, pid) && w in a.frames && a.frames[w] == Pt(m1, pid)[w].ppn {
        assert Between(v, w, a.hi);
      }
      UnmapPagesOk(b, m1, pid, a, v + 1);
      assert forall w :: Between(v, w, a.hi) <==> w == v || Between(v + 1, w, a.hi);
      assert PtMinus(pt - {v}, v + 1, a.hi) == PtMinus(pt, v, a.hi);
    } else {
      assert PtMinus(pt, v, a.hi) == pt;
    }
  }

  lemma AreasRemoved(s: Space, i: nat)
    requires AreaInv(s) && i < |s.areas|
    ensures var a := s.areas[i];
            AreaInv(Space(PtMinus(s.pt, a.lo, a.hi), s.areas[..i] + s.areas[i + 1..]))
  {
    hide Laid, AllBacked, Covered, PtMinus;
    LaidWithout(s.areas, i);
    BackedWithout(s.areas, s.pt, i);
    CoveredWithout(s.areas, s.pt, i);
  }

  lemma LaidWithout(areas: seq<Area>, i: nat)
    requires Laid(areas) && i < |areas|
    ensures Laid(areas[..i] + areas[i + 1..])
  {
    hide Apart;
    var rest := areas[..i] + areas[i + 1..];
    assert forall j :: 0 <= j < |rest| ==> rest[j] == areas[if j < i then j else j + 1];
  }

  lemma BackedWithout(areas: seq<Area>, pt: map<nat, Pte>, i: nat)
    requires Laid(areas) && AllBacked(areas, pt) && i < |areas|
    ensures AllBacked(areas[..i] + areas[i + 1..], PtMinus(pt, areas[i].lo, areas[i].hi))
  {
    hide Backed, PtMinus, Apart;
    var rest := areas[..i] + areas[i + 1..];
    forall j | 0 <= j < |rest| ensures Backed(rest[j], PtMinus(pt, areas[i].lo, areas[i].hi)) {
      var k := if j < i then j else j + 1;
      assert if k < i then Apart(areas[k], areas[i]) else Apart(areas[i], areas[k]);
      BackedShrunk(areas[k], pt, areas[i]);
    }
  }

  lemma CoveredWithout(areas: seq<Area>, pt: map<nat, Pte>, i: nat)
    requires Covered(areas, pt) && i < |areas|
    ensures Covered(areas[..i] + areas[i + 1..], PtMinus(pt, areas[i].lo, areas[i].hi))
  {
    var rest, pt1 := areas[..i] + areas[i + 1..], PtMinus(pt, areas[i].lo, areas[i].hi);
    forall w | w in pt1 ensures InSome(rest, w) {
      assert InSome(areas, w);
      var k :| 0 <= k < |areas| && Between(areas[k].lo, w, areas[k].hi);
      assert rest[if k < i then k else k - 1] == areas[k];
    }
  }

  lemma BackedShrunk(c: Area, pt: map<nat, Pte>, a: Area)
    requires Backed(c, pt) && (Apart(c, a) || Apart(a, c))
    ensures Backed(c, PtMinus(pt, a.lo, a.hi))
  {
  }

  lemma AreaMapped(s: Space, i: nat)
    requires AreaInv(s) && i < |s.areas|
    ensures forall w :: Between(s.areas[i].lo, w, s.areas[i].hi) ==>
              w in s.pt && w in s.areas[i].frames && s.areas[i].frames[w] == s.pt[w].ppn
  {
    assert Backed(s.areas[i], s.pt);
  }

  lemma PagesDropped(pt: map<nat, Pte>, mem: seq<Page>, lo: nat, hi: nat)
    ensures Pages(PtMinus(pt, lo, hi), mem) == DropPages(Pages(pt, mem), lo, hi)
  {
    hide PageOf;
  }

  lemma RangesWithout(areas: seq<Area>, i: nat)
    requires i < |areas|
    ensures Ranges(areas[..i] + areas[i + 1..]) == Ranges(areas)[..i] + Ranges(areas)[i + 1..]
  {
  }

  /** Removing an area undoes inserting it: its pages go, its references go, nothing else changes. */
  lemma RemoveAreaOk(b: nat, m: Machine, pid: nat, i: nat)
    requires Inv(b, m) && pid in m.spaces && i < |m.spaces[pid].areas|
    ensures RemoveArea(m, pid, i).Ok?
    ensures var m1 := RemoveArea(m, pid, i).value;
            var s := m.spaces[pid];
            && Inv(b, m1) && ViewChanged(m, m1, pid, Remove(View(m).spaces[pid], i))
            && m1.spaces == m.spaces[pid := Space(PtMinus(s.pt, s.areas[i].lo, s.areas[i].hi),
                s.areas[..i] + s.areas[i + 1..])]
            && m1.tables == m.tables && m1.mem == m.mem
  {
    hide Sys, AreaInv, Ranges, ViewChanged;
    var s := m.spaces[pid];
    var a, areas' := s.areas[i], s.areas[..i] + s.areas[i + 1..];
    var m0 := SetAreas(m, pid, areas');
    SysAreas(b, m, pid, areas');
    AreaMapped(s, i);
    UnmapPagesOk(b, m0, pid, a, a.lo);
    var m1 := UnmapPages(m0, pid, a, a.lo).value;
    AreasRemoved(s, i);
    var s1 := Space(PtMinus(s.pt, a.lo, a.hi), areas');
    SameMemory(b, m, m1, pid, s1);
    PagesDropped(s.pt, m.mem, a.lo, a.hi);
    RangesWithout(s.areas, i);
    assert Ranges(s.areas)[i] == Range(a.lo, a.hi, a.perm) by { RangeAt(s.areas, i); }
  }

  lemma RangeAt(areas: seq<Area>, i: nat)
    requires i < |areas|
    ensures Ranges(areas)[i] == Range(areas[i].lo, areas[i].hi, areas[i].perm)
  {
  }

  lemma SameMemory(b: nat, m: Machine, m1: Machine, pid: nat, s: Space)
    requires pid in m.spaces && m1.mem == m.mem && m1.spaces == m.spaces[pid := s] && m1.tables.Keys == m.tables.Keys
    ensures ViewChanged(m, m1, pid, SpaceView(s, m.mem))
  {
    assert View(m1).spaces == View(m).spaces[pid := SpaceView(s, m.mem)];
  }

  // ----- exit and reaping -----

  lemma {:induction false} ClearAreasOk(b: nat, m: Machine, pid: nat, areas: seq<Area>, i: nat)
    requires Sys(b, m) && pid in m.spaces && i <= |areas| && Laid(areas)
    requires forall w :: w in Pt(m, pid) <==> InSome(areas[i..], w)
    requires forall k :: i <= k < |areas| ==> Backed(areas[k], Pt(m, pid))
    ensures ClearAreas(m, pid, areas, i).Ok?
    ensures var m1 := ClearAreas(m, pid, areas, i).value;
            && Sys(b, m1) && m1.mem == m.mem && m1.tables == m.tables
            && m1.spaces == m.spaces[pid := Space(map[], m.spaces[pid].areas)]
    decreases |areas| - i
  {
    hide Sys, InSome, Laid, Backed;
    if i < |areas| {
      var a := areas[i];
      BackedPages(a, Pt(m, pid));
      forall w ensures w in Pt(m, pid) <==> Between(a.lo, w, a.hi) || InSome(areas[i + 1..], w) {
        InTail(areas, i, w);
      }
      UnmapPagesOk(b, m, pid, a, a.lo);
      var m1 := UnmapPages(m, pid, a, a.lo).value;
      forall w ensures w in Pt(m1, pid) <==> InSome(areas[i + 1..], w) {
        TailApart(areas, i, w);
        assert w in Pt(m1, pid) <==> w in Pt(m, pid) && !Between(a.lo, w, a.hi);
      }
      forall k | i + 1 <= k < |areas| ensures Backed(areas[k], Pt(m1, pid)) {
        LaidApart(areas, i, k);
        BackedShrunk(areas[k], Pt(m, pid), a);
      }
      ClearAreasOk(b, m1, pid, areas, i + 1);
    } else {
      forall w | w in m.spaces[pid].pt ensures false {
        assert w in Pt(m, pid) && areas[i..] == [];
        InEmpty(w);
      }
      assert m.spaces[pid].pt.Keys == {};
      assert m.spaces == m.spaces[pid := Space(map[], m.spaces[pid].areas)];
    }
  }

  lemma LaidApart(areas: seq<Area>, i: nat, k: nat)
    requires Laid(areas) && i < k < |areas|
    ensures Apart(areas[i], areas[k])
  {
  }

  lemma BackedPages(a: Area, pt: map<nat, Pte>)
    requires Backed(a, pt)
    ensures forall w :: Between(a.lo, w, a.hi) ==> w in pt && w in a.frames && a.frames[w] == pt[w].ppn
  {
  }

  lemma InEmpty(w: nat)
    ensures !InSome([], w)
  {
  }

  lemma TailApart(areas: seq<Area>, i: nat, w: nat)
    requires i < |areas| && Laid(areas)
    ensures InSome(areas[i + 1..], w) ==> !Between(areas[i].lo, w, areas[i].hi)
  {
    if InSome(areas[i + 1..], w) {
      var k :| 0 <= k < |areas[i + 1..]| && Between(areas[i + 1..][k].lo, w, areas[i + 1..][k].hi);
      assert Apart(areas[i], areas[i + 1 + k]);
    }
  }

  lemma InTail(areas: seq<Area>, i: nat, w: nat)
    requires i < |areas|
    ensures InSome(areas[i..], w) <==> Between(areas[i].lo, w, areas[i].hi) || InSome(areas[i + 1..], w)
  {
    if InSome(areas[i..], w) {
      var k :| 0 <= k < |areas[i..]| && Between(areas[i..][k].lo, w, areas[i..][k].hi);
      if k > 0 { assert areas[i + 1..][k - 1] == areas[i..][k]; }
    }
    if Between(areas[i].lo, w, areas[i].hi) { assert areas[i..][0] == areas[i]; }
    if InSome(areas[i + 1..], w) {
      var k :| 0 <= k < |areas[i + 1..]| && Between(areas[i + 1..][k].lo, w, areas[i + 1..][k].hi);
      assert areas[i..][k + 1] == areas[i + 1..][k];
    }
  }

  lemma ExitOk(b: nat, m: Machine, pid: nat)
    requires Inv(b, m) && pid in m.spaces
    ensures ExitSpace(m, pid).Ok?
    ensures var m1 := ExitSpace(m, pid).value;
            && Inv(b, m1) && View(m1) == State(View(m).spaces - {pid}, View(m).zombies + {pid})
            && m1.spaces == m.spaces - {pid} && m1.tables == m.tables
  {
    hide Sys, Laid, Backed, Covered, InSome;
    var s := m.spaces[pid];
    assert AreaInv(s);
    forall w ensures w in Pt(m, pid) <==> InSome(s.areas[0..], w) {
      PageIffInArea(s, w);
      assert s.areas[0..] == s.areas;
    }
    LiveHasTables(b, m, pid);
    ClearAreasOk(b, m, pid, s.areas, 0);
    var m1 := ClearAreas(m, pid, s.areas, 0).value;
    SysWithout(b, m1, pid);
    var m2 := m1.(spaces := m1.spaces - {pid});
    assert m2.spaces == m.spaces - {pid};
    assert View(m2).spaces == View(m).spaces - {pid};
  }

  lemma PageIffInArea(s: Space, w: nat)
    requires AreaInv(s)
    ensures w in s.pt <==> InSome(s.areas, w)
  {
    if InSome(s.areas, w) {
      var i :| 0 <= i < |s.areas| && Between(s.areas[i].lo, w, s.areas[i].hi);
      assert Backed(s.areas[i], s.pt);
    }
  }

  lemma SysWithout(b: nat, m: Machine, pid: nat)
    requires Sys(b, m) && pid in m.spaces && m.spaces[pid].pt == map[]
    ensures Sys(b, m.(spaces := m.spaces - {pid}))
  {
    var sp := m.spaces - {pid};
    assert forall q :: PtOf(sp, q) == PtOf(m.spaces, q);
  }

  /** Tables `[k, |all|)` of a removed page table still hold their frames; all other tables are in order. */
  ghost predicate Reaping(ts: map<nat, seq<TableFrame>>, all: seq<TableFrame>, pid: nat, k: nat, trk: Trackers,
                          rc: map<nat, nat>) {
    && pid !in ts
    && (forall q, j: nat :: Table(q, j) in trk <==> if q == pid then k <= j < |all| else j < |TablesOf(ts, q)|)
    && (forall q, j: nat :: q != pid && j < |TablesOf(ts, q)| ==>
          var p := TablesOf(ts, q)[j].ppn;
          trk[Table(q, j)] == p && p in rc && rc[p] == 1)
    && (forall j: nat :: k <= j < |all| ==> trk[Table(pid, j)] == all[j].ppn && all[j].ppn in rc && rc[all[j].ppn] == 1)
  }

  lemma DataKeptByRelease(sp: Spaces, trk: Trackers, rc: map<nat, nat>, s: Slot)
    requires DataInv(sp, trk, rc) && Counted(rc, trk) && s in trk && !s.Data? && rc[trk[s]] == 1
    ensures DataInv(sp, trk - {s}, rc - {trk[s]})
  {
    Exclusive(rc, trk, s);
  }

  lemma ReapingStep(ts: map<nat, seq<TableFrame>>, all: seq<TableFrame>, pid: nat, k: nat, trk: Trackers, rc: map<nat,
                    nat>)
    requires Reaping(ts, all, pid, k, trk, rc) && Counted(rc, trk) && k < |all|
    ensures Reaping(ts, all, pid, k + 1, trk - {Table(pid, k)}, rc - {trk[Table(pid, k)]})
  {
    Exclusive(rc, trk, Table(pid, k));
  }

  ghost predicate ReapSys(b: nat, m: Machine, all: seq<TableFrame>, pid: nat, k: nat) {
    && FramesOk(b, m.frames, m.trk) && MemOk(m) && DataInv(m.spaces, m.trk, m.frames.refCounts)
    && Reaping(m.tables, all, pid, k, m.trk, m.frames.refCounts) && m.spaces.Keys <= m.tables.Keys && Local !in m.trk
  }

  lemma {:induction false} DropTablesOk(b: nat, m: Machine, all: seq<TableFrame>, pid: nat, k: nat)
    requires ReapSys(b, m, all, pid, k) && k <= |all|
    ensures DropTables(m, pid, all, k).Ok?
    ensures var m1 := DropTables(m, pid, all, k).value;
            ReapSys(b, m1, all, pid, |all|) && m1 == m.(frames := m1.frames, trk := m1.trk)
    decreases |all| - k
  {
    if k < |all| {
      assert Table(pid, k) in m.trk && m.trk[Table(pid, k)] == all[k].ppn && m.frames.refCounts[all[k].ppn] == 1;
      hide Partition, Counted, DataInv, Reaping;
      var s := Table(pid, k);
      DeallocKeeps(b, m.frames, m.trk, s);
      DataKeptByRelease(m.spaces, m.trk, m.frames.refCounts, s);
      ReapingStep(m.tables, all, pid, k, m.trk, m.frames.refCounts);
      DropTablesOk(b, DropFrame(m, all[k].ppn, s).value, all, pid, k + 1);
    }
  }

  /** Reaping a zombie returns all its page-table frames and changes no address space. */
  lemma ReapOk(b: nat, m: Machine, pid: nat)
    requires Inv(b, m) && pid in m.tables && pid !in m.spaces
    ensures ReapTables(m, pid).Ok?
    ensures var m1 := ReapTables(m, pid).value;
            && Inv(b, m1) && View(m1) == State(View(m).spaces, View(m).zombies - {pid})
            && m1.spaces == m.spaces && m1.tables == m.tables - {pid}
  {
    hide AreaInv;
    var all := TablesOf(m.tables, pid);
    var m0 := m.(tables := m.tables - {pid});
    StartReaping(b, m, pid);
    DropTablesOk(b, m0, all, pid, 0);
    var m1 := DropTables(m0, pid, all, 0).value;
    EndReaping(b, m1, all, pid);
  }

  lemma StartReaping(b: nat, m: Machine, pid: nat)
    requires Sys(b, m) && pid in m.tables && pid !in m.spaces
    ensures ReapSys(b, m.(tables := m.tables - {pid}), TablesOf(m.tables, pid), pid, 0)
  {
    hide FramesOk, DataInv;
    var ts := m.tables - {pid};
    assert forall q :: q != pid ==> TablesOf(ts, q) == TablesOf(m.tables, q);
  }

  lemma EndReaping(b: nat, m: Machine, all: seq<TableFrame>, pid: nat)
    requires ReapSys(b, m, all, pid, |all|)
    ensures Sys(b, m)
  {
    hide FramesOk, DataInv;
  }

  // ----- faults, stores, private ranges -----

  /** A handled fault is invisible to every process. */
  lemma FaultInvisible(b: nat, m: Machine, m1: Machine, pid: nat, v: nat)
    requires Inv(b, m) && FaultHandled(b, m, m1, pid, v) && m.spaces[pid].pt[v].cow
    ensures Inv(b, m1) && View(m1) == View(m)
    ensures m1.spaces.Keys == m.spaces.Keys
    ensures Pt(m1, pid).Keys == Pt(m, pid).Keys
    ensures forall w :: w in Pt(m, pid) && w != v ==> Pt(m1, pid)[w] == Pt(m, pid)[w]
  {
    hide Sys, AreaInv, SpaceView;
    forall q | q in m.spaces ensures SpaceView(m1.spaces[q], m1.mem) == SpaceView(m.spaces[q], m.mem) {
      FaultSpace(b, m, m1, pid, v, q);
    }
  }

  lemma FaultSpace(b: nat, m: Machine, m1: Machine, pid: nat, v: nat, q: nat)
    requires Sys(b, m) && FaultHandled(b, m, m1, pid, v) && m.spaces[pid].pt[v].cow && q in m.spaces
    ensures SpaceView(m1.spaces[q], m1.mem) == SpaceView(m.spaces[q], m.mem)
  {
    hide Sys, AreaInv;
    LiveBytes(b, m, m1, q);
    var pt, pt1 := m.spaces[q].pt, m1.spaces[q].pt;
    assert pt.Keys == pt1.Keys;
    forall w | w in pt ensures PageOf(pt1[w], m1.mem) == PageOf(pt[w], m.mem) {
    }
    assert Pages(pt1, m1.mem) == Pages(pt, m.mem);
  }

  lemma LiveBytes(b: nat, m: Machine, m1: Machine, pid: nat)
    requires Sys(b, m) && pid in m.spaces && |m1.mem| == |m.mem|
    requires forall p :: p in m.frames.refCounts && p < |m.mem| ==> m1.mem[p] == m.mem[p]
    ensures forall w :: w in m.spaces[pid].pt ==>
              PageOf(m.spaces[pid].pt[w], m1.mem) == PageOf(m.spaces[pid].pt[w], m.mem)
  {
    forall w | w in m.spaces[pid].pt ensures PageOf(m.spaces[pid].pt[w], m1.mem) == PageOf(m.spaces[pid].pt[w], m.mem) {
      assert w in PtOf(m.spaces, pid);
    }
  }

  ghost function PagesOf(m: Machine, pid: nat): map<nat, PrivatePage> { Pages(Pt(m, pid), m.mem) }

  lemma ViewPages(m: Machine, pid: nat)
    requires pid in m.spaces
    ensures View(m).spaces[pid].pages == PagesOf(m, pid)
  {
  }

  ghost predicate HardwareWritable(m: Machine, pid: nat, v: nat) {
    v in Pt(m, pid) && Pt(m, pid)[v].perm.u && Pt(m, pid)[v].perm.w
  }

  /** What the kernel may write in place belongs to one process only. */
  lemma WritableIsPrivate(b: nat, m: Machine, pid: nat, v: nat)
    requires Inv(b, m) && HardwareWritable(m, pid, v)
    ensures !Pt(m, pid)[v].cow
    ensures forall q, w :: w in Pt(m, q) && Pt(m, q)[w].ppn == Pt(m, pid)[v].ppn ==> q == pid && w == v
  {
    EntryFacts(b, m, pid, v, Pt(m, pid)[v]);
    Exclusive(m.frames.refCounts, m.trk, Data(pid, v));
    forall q, w | w in Pt(m, q) && Pt(m, q)[w].ppn == Pt(m, pid)[v].ppn ensures q == pid && w == v {
      EntryFacts(b, m, q, w, Pt(m, q)[w]);
      assert Data(q, w) == Data(pid, v);
    }
  }

  /** The loop of `ensure_private_range` answers what the reference machine answers, changes no view, and
      after a yes the hardware may write every page of the range. */
  lemma {:induction false} EnsurePagesOk(b: nat, m: Machine, pid: nat, v: nat, end: nat)
    requires Inv(b, m) && pid in m.spaces
    ensures match EnsurePages(m, pid, v, end)
            case Ok((m1, yes)) =>
              && Inv(b, m1) && View(m1) == View(m)
              && (yes <==> forall w :: v <= w < end ==> Writable(PagesOf(m, pid), w))
              && (yes ==> forall w :: v <= w < end ==> HardwareWritable(m1, pid, w))
              && (forall w :: w in Pt(m, pid) && w < v ==> w in Pt(m1, pid) && Pt(m1, pid)[w] == Pt(m, pid)[w])
            case OutOfMemory => true
            case Panic => false
    decreases end - v
  {
    hide Sys, AreaInv, View, FaultHandled, HandleCowFault, ToFresh;
    if v < end && Writable(PagesOf(m, pid), v) {
      if Pt(m, pid)[v].cow {
        HandleCowFaultOk(b, m, pid, v);
        if HandleCowFault(m, pid, v).Ok? {
          var m1 := HandleCowFault(m, pid, v).value.0;
          FaultInvisible(b, m, m1, pid, v);
          FaultWrites(b, m, m1, pid, v);
          SameViewPages(m, m1, pid);
          EnsurePagesOk(b, m1, pid, v + 1, end);
        }
      } else {
        EnsurePagesOk(b, m, pid, v + 1, end);
      }
    }
  }

  lemma FaultWrites(b: nat, m: Machine, m1: Machine, pid: nat, v: nat)
    requires FaultHandled(b, m, m1, pid, v) && Pt(m, pid)[v].perm.u
    ensures HardwareWritable(m1, pid, v) && Pt(m1, pid)[v].perm.r == Pt(m, pid)[v].perm.r
  {
  }

  lemma SameViewPages(m: Machine, m1: Machine, pid: nat)
    requires View(m1) == View(m) && pid in m.spaces
    ensures pid in m1.spaces && PagesOf(m1, pid) == PagesOf(m, pid)
  {
    assert pid in View(m).spaces && pid in View(m1).spaces;
    assert View(m).spaces[pid].pages == View(m1).spaces[pid].pages;
  }

  /** A store to a hardware-writable page changes one byte of one process. */
  lemma PokeOk(b: nat, m: Machine, pid: nat, v: nat, off: nat, byte: Byte)
    requires Inv(b, m) && HardwareWritable(m, pid, v) && off < PAGE_SIZE
    ensures pid in m.spaces && v in PagesOf(m, pid) && off < |PagesOf(m, pid)[v].bytes|
    ensures var r := Poke(m, Pt(m, pid)[v].ppn, off, byte);
            && r.Ok? && Inv(b, r.value)
            && ViewChanged(m, r.value, pid, View(m).spaces[pid].(pages := WriteByte(PagesOf(m, pid), v, off, byte)))
  {
    hide Sys, AreaInv;
    var p := Pt(m, pid)[v].ppn;
    EntryFacts(b, m, pid, v, Pt(m, pid)[v]);
    WritableIsPrivate(b, m, pid, v);
    var m1 := Poke(m, p, off, byte).value;
    CopyKeepsSys(b, m, p, m.mem[p][off := byte]);
    forall q | q in m.spaces && q != pid ensures SpaceView(m.spaces[q], m1.mem) == SpaceView(m.spaces[q], m.mem) {
      assert forall w :: w in m.spaces[q].pt ==> w in Pt(m, q);
      PagesElsewhere(m.spaces[q].pt, m.mem, p, m.mem[p][off := byte]);
    }
    PagesAtOne(m.spaces[pid].pt, m.mem, v, m.mem[p][off := byte]);
    var s := View(m).spaces[pid].(pages := WriteByte(PagesOf(m, pid), v, off, byte));
    assert View(m1).spaces == View(m).spaces[pid := s];
  }

  lemma PagesElsewhere(pt: map<nat, Pte>, mem: seq<Page>, p: nat, page: Page)
    requires p < |mem| && forall w :: w in pt ==> pt[w].ppn != p
    ensures Pages(pt, mem[p := page]) == Pages(pt, mem)
  {
  }

  lemma PagesAtOne(pt: map<nat, Pte>, mem: seq<Page>, v: nat, page: Page)
    requires v in pt && pt[v].ppn < |mem| && forall w :: w in pt && w != v ==> pt[w].ppn != pt[v].ppn
    ensures Pages(pt, mem[pt[v].ppn := page]) == Pages(pt, mem)[v := PrivatePage(page, pt[v].Visible())]
  {
  }

  /** A user store, with its fault and retry, is the store of the reference machine. */
  lemma StoreByteOk(b: nat, m: Machine, pid: nat, v: nat, off: nat, byte: Byte)
    requires Inv(b, m) && pid in m.spaces
    ensures match StoreByte(m, pid, v, off, byte)
            case Ok((m1, out)) =>
              && Inv(b, m1)
              && var (ps, o) := SpaceStep(View(m).spaces[pid], Store(pid, v, off, byte));
              ViewChanged(m, m1, pid, ps) && out == o
            case OutOfMemory => true
            case Panic => false
  {
    hide Sys, AreaInv, FaultHandled, View, ToFresh;
    ViewPages(m, pid);
    if v in Pt(m, pid) { PageBytes(b, m, pid, v); }
    UnchangedView(m, pid);
    if off < PAGE_SIZE {
      if StoreAllowed(m, pid, v) {
        PokeOk(b, m, pid, v, off, byte);
      } else {
        HandleCowFaultOk(b, m, pid, v);
        if HandleCowFault(m, pid, v).Ok? && HandleCowFault(m, pid, v).value.1 {
          var m1 := HandleCowFault(m, pid, v).value.0;
          FaultInvisible(b, m, m1, pid, v);
          CowIsUser(b, m, pid, v);
          FaultWrites(b, m, m1, pid, v);
          SameViewPages(m, m1, pid);
          if Pt(m, pid)[v].perm.r { PokeOk(b, m1, pid, v, off, byte); }
        }
      }
    }
  }

  lemma CowIsUser(b: nat, m: Machine, pid: nat, v: nat)
    requires Inv(b, m) && v in Pt(m, pid) && Pt(m, pid)[v].cow
    ensures Pt(m, pid)[v].perm.u && !Pt(m, pid)[v].perm.w
  {
    EntryFacts(b, m, pid, v, Pt(m, pid)[v]);
  }

  lemma PageBytes(b: nat, m: Machine, pid: nat, v: nat)
    requires Inv(b, m) && v in Pt(m, pid)
    ensures v in PagesOf(m, pid) && |PagesOf(m, pid)[v].bytes| == PAGE_SIZE
    ensures Pt(m, pid)[v].ppn < |m.mem| && PagesOf(m, pid)[v].bytes == m.mem[Pt(m, pid)[v].ppn]
    ensures PagesOf(m, pid)[v].perm == Pt(m, pid)[v].Visible()
  {
    EntryFacts(b, m, pid, v, Pt(m, pid)[v]);
  }

  lemma UnchangedView(m: Machine, pid: nat)
    requires pid in m.spaces
    ensures ViewChanged(m, m, pid, View(m).spaces[pid])
  {
    assert View(m).spaces == View(m).spaces[pid := View(m).spaces[pid]];
  }
}
