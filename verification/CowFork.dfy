/** `from_existed_user_cow` gives the child exactly the pages the parent sees. */
module CowFork {
  import opened Wrappers
  import opened FrameAllocator
  import opened PM = PrivateMemory
  import opened CopyOnWrite
  import opened CowRefinement

  // ----- an empty address space -----

  lemma NewSpaceOk(b: nat, m: Machine, pid: nat)
    requires Inv(b, m) && pid !in m.tables
    ensures match NewSpace(m, pid)
            case Ok(m1) =>
              && Inv(b, m1) && Ext(m, m1) && m1.spaces == m.spaces[pid := Space(map[], [])]
              && m1.tables.Keys == m.tables.Keys + {pid}
            case OutOfMemory => true
            case Panic => false
  {
    hide AreaInv, FramesOk, DataInv, TableInv;
    NoSlots(b, m, pid);
    TakeFrameOk(b, m, Table(pid, 0));
    if TakeFrame(m, Table(pid, 0)).Ok? {
      var (m1, p) := TakeFrame(m, Table(pid, 0)).value;
      var m2 := m1.(tables := m1.tables[pid := [TableFrame(Root, p)]], spaces := m1.spaces[pid := Space(map[], [])]);
      FreshForOther(m.spaces, m.trk, m.frames.refCounts, Table(pid, 0), p);
      FreshTable(m.tables, m.trk, m.frames.refCounts, pid, Root, p);
      assert TablesOf(m.tables, pid) + [TableFrame(Root, p)] == [TableFrame(Root, p)];
      EmptySpaceAdded(m.spaces, m2.trk, m2.frames.refCounts, pid);
      assert SysFor(b, m2, m2.spaces) && Ext(m, m2);
      AddTablesOk(b, m2, m2.spaces, pid, TRAMPOLINE_VPN);
      var r := AddTables(m2, pid, TRAMPOLINE_VPN);
      if r.Ok? { ExtTransitive(m, m2, r.value); }
      EmptyAreas();
    }
  }

  lemma EmptyAreas()
    ensures AreaInv(Space(map[], []))
  {
  }

  lemma NoSlots(b: nat, m: Machine, pid: nat)
    requires Sys(b, m) && pid !in m.tables
    ensures Table(pid, 0) !in m.trk && pid !in m.spaces && TablesOf(m.tables, pid) == []
  {
  }

  lemma EmptySpaceAdded(sp: Spaces, trk: Trackers, rc: map<nat, nat>, pid: nat)
    requires DataInv(sp, trk, rc) && pid !in sp
    ensures DataInv(sp[pid := Space(map[], [])], trk, rc)
  {
    var sp' := sp[pid := Space(map[], [])];
    assert forall q :: PtOf(sp', q) == PtOf(sp, q);
  }

  // ----- copying the pages -----

  /** Entries that keep frame and promise. */
  ghost predicate SamePromise(pt: map<nat, Pte>, pt': map<nat, Pte>) {
    pt.Keys == pt'.Keys && forall w :: w in pt ==> pt'[w].ppn == pt[w].ppn && pt'[w].Visible() == pt[w].Visible()
  }

  /** During the fork from `m0`: the parent's pages keep frame and promise, the child's pages are copies of the
      parent's, and nobody else changed. */
  ghost predicate Forking(b: nat, m0: Machine, m: Machine, p: nat, c: nat) {
    && Sys(b, m) && Ext(m0, m) && m.tables.Keys == m0.tables.Keys && m.spaces.Keys == m0.spaces.Keys
    && p != c && p in m0.spaces && c in m0.spaces
    && (forall q :: q in m0.spaces && q != p && q != c ==> m.spaces[q] == m0.spaces[q])
    && m.spaces[p].areas == m0.spaces[p].areas && SamePromise(m0.spaces[p].pt, m.spaces[p].pt)
    && CopiesOf(Pt(m, c), m.mem, Pt(m0, p), m0.mem)
  }

  /** Every page of `pt` over `mem` shows what `pt0` over `mem0` shows. */
  ghost predicate CopiesOf(pt: map<nat, Pte>, mem: seq<Page>, pt0: map<nat, Pte>, mem0: seq<Page>) {
    forall w :: w in pt ==> w in pt0 && PageOf(pt[w], mem) == PageOf(pt0[w], mem0)
  }

  /** Translations that only grew, by `[v, end)`. */
  ghost predicate Grown(pt: map<nat, Pte>, pt1: map<nat, Pte>, v: nat, end: nat) {
    && (forall w :: w in pt1 <==> w in pt || Between(v, w, end))
    && (forall w :: w in pt ==> pt1[w] == pt[w])
  }

  lemma GrownByOne(pt: map<nat, Pte>, v: nat, e: Pte)
    requires v !in pt
    ensures Grown(pt, pt[v := e], v, v + 1)
  {
  }

  lemma SamePromiseStep(pt0: map<nat, Pte>, pt: map<nat, Pte>, v: nat, e: Pte)
    requires SamePromise(pt0, pt) && v in pt && e.ppn == pt[v].ppn && e.Visible() == pt[v].Visible()
    ensures SamePromise(pt0, pt[v := e])
  {
  }

  lemma CopiesStep(pt: map<nat, Pte>, mem: seq<Page>, mem1: seq<Page>, pt0: map<nat, Pte>, mem0: seq<Page>, v: nat,
                   e: Pte)
    requires CopiesOf(pt, mem, pt0, mem0) && v in pt0 && PageOf(e, mem1) == PageOf(pt0[v], mem0)
    requires forall w :: w in pt ==> PageOf(pt[w], mem1) == PageOf(pt[w], mem)
    ensures CopiesOf(pt[v := e], mem1, pt0, mem0)
  {
    hide PageOf;
  }

  /** One more page, whatever the kernel did to get it. */
  lemma ForkStep(b: nat, m0: Machine, m: Machine, m1: Machine, p: nat, c: nat, v: nat, ep: Pte, ec: Pte)
    requires Forking(b, m0, m, p, c) && v in Pt(m, p) && v !in Pt(m, c)
    requires Sys(b, m1) && Ext(m, m1) && m1.tables.Keys == m.tables.Keys
    requires m1.spaces == SetPte(SetPte(m, p, v, ep), c, v, ec).spaces
    requires ep.ppn == Pt(m, p)[v].ppn && ep.Visible() == Pt(m, p)[v].Visible()
    requires v in Pt(m0, p) && PageOf(ec, m1.mem) == PageOf(Pt(m0, p)[v], m0.mem)
    ensures Forking(b, m0, m1, p, c) && m1.spaces[c].areas == m.spaces[c].areas
    ensures Pt(m1, c) == Pt(m, c)[v := ec] && Grown(Pt(m, c), Pt(m1, c), v, v + 1)
  {
    hide Sys, PageOf, SamePromise, CopiesOf, Grown;
    ExtTransitive(m0, m, m1);
    LiveBytes(b, m, m1, c);
    SamePromiseStep(m0.spaces[p].pt, m.spaces[p].pt, v, ep);
    CopiesStep(Pt(m, c), m.mem, m1.mem, Pt(m0, p), m0.mem, v, ec);
    GrownByOne(Pt(m, c), v, ec);
  }

  /** A page of a parent's area: where its frame is and what it shows. */
  lemma ParentPage(b: nat, m0: Machine, m: Machine, p: nat, c: nat, a: Area, v: nat)
    requires Sys(b, m0) && Forking(b, m0, m, p, c) && Backed(a, Pt(m0, p)) && Between(a.lo, v, a.hi)
    ensures v in Pt(m, p) && v in Pt(m0, p) && v in a.frames
    ensures a.frames[v] == Pt(m, p)[v].ppn == Pt(m0, p)[v].ppn
    ensures Pt(m, p)[v].Visible() == Pt(m0, p)[v].Visible() == a.perm
    ensures PageOf(Pt(m, p)[v], m.mem) == PageOf(Pt(m0, p)[v], m0.mem)
  {
    EntryFacts(b, m0, p, v, Pt(m0, p)[v]);
  }

  lemma SharedLooksSame(e: Pte, mem: seq<Page>)
    ensures Shared(e).ppn == e.ppn && Shared(e).Visible() == e.Visible() && PageOf(Shared(e), mem) == PageOf(e, mem)
  {
  }

  /** The page was forked: both relations hold one page further, with the child's frame `n`. */
  ghost predicate PageForked(b: nat, m0: Machine, m: Machine, m1: Machine, p: nat, c: nat, perm: Perm, v: nat, n: nat) {
    && Forking(b, m0, m1, p, c) && c in m.spaces && m1.spaces[c].areas == m.spaces[c].areas
    && v in Pt(m1, c) && Grown(Pt(m, c), Pt(m1, c), v, v + 1)
    && Pt(m1, c)[v].ppn == n && Pt(m1, c)[v].Visible() == perm
  }

  lemma ForkUserPage(b: nat, m0: Machine, m: Machine, p: nat, c: nat, a: Area, v: nat)
    requires Sys(b, m0) && Forking(b, m0, m, p, c) && Backed(a, Pt(m0, p)) && Between(a.lo, v, a.hi)
    requires v !in Pt(m, c) && v in Pt(m, p) && Pt(m, p)[v].perm.u && v in a.frames
    ensures match SharePage(m, p, c, v, a.frames[v])
            case Ok(m1) => PageForked(b, m0, m, m1, p, c, a.perm, v, a.frames[v])
            case OutOfMemory => true
            case Panic => false
  {
    hide Sys, PageOf, SamePromise, CopiesOf, Grown, Backed;
    ParentPage(b, m0, m, p, c, a, v);
    var e := Pt(m, p)[v];
    SharePageOk(b, m, p, c, v);
    var r := SharePage(m, p, c, v, e.ppn);
    if r.Ok? {
      SharedLooksSame(e, m.mem);
      SharedLooksSame(e, r.value.mem);
      LiveBytes(b, m, r.value, p);
      ForkStep(b, m0, m, r.value, p, c, v, Shared(e), Shared(e));
    }
  }

  lemma SetSamePte(m: Machine, p: nat, v: nat)
    requires p in m.spaces && v in Pt(m, p)
    ensures SetPte(m, p, v, Pt(m, p)[v]) == m
  {
    assert m.spaces[p].pt[v := Pt(m, p)[v]] == m.spaces[p].pt;
    assert m.spaces[p := Space(m.spaces[p].pt, m.spaces[p].areas)] == m.spaces;
  }

  lemma ForkKernelPage(b: nat, m0: Machine, m: Machine, p: nat, c: nat, a: Area, v: nat)
    requires Sys(b, m0) && Forking(b, m0, m, p, c) && Backed(a, Pt(m0, p)) && Between(a.lo, v, a.hi)
    requires v !in Pt(m, c) && v in Pt(m, p)
    ensures match CopyPage(m, p, c, v, a.perm)
            case Ok((m1, n)) => PageForked(b, m0, m, m1, p, c, a.perm, v, n)
            case OutOfMemory => true
            case Panic => false
  {
    hide Sys, SamePromise, CopiesOf, Grown, Backed;
    ParentPage(b, m0, m, p, c, a, v);
    CopyPageOk(b, m, p, c, v, a.perm);
    if CopyPage(m, p, c, v, a.perm).Ok? {
      var (m1, n) := CopyPage(m, p, c, v, a.perm).value;
      SetSamePte(m, p, v);
      ForkStep(b, m0, m, m1, p, c, v, Pt(m, p)[v], Pte(n, a.perm, false));
    }
  }

  lemma BackedStep(na: Area, pt: map<nat, Pte>, pt1: map<nat, Pte>, v: nat, n: nat)
    requires Backed(na.(hi := v), pt) && na.lo <= v && Grown(pt, pt1, v, v + 1)
    requires v in pt1 && pt1[v].ppn == n && pt1[v].Visible() == na.perm
    ensures Backed(na.(hi := v + 1, frames := na.frames[v := n]), pt1)
  {
    assert forall w :: Between(na.lo, w, v + 1) <==> Between(na.lo, w, v) || w == v;
  }

  lemma GrownTransitive(pt: map<nat, Pte>, pt1: map<nat, Pte>, pt2: map<nat, Pte>, v: nat, end: nat)
    requires Grown(pt, pt1, v, v + 1) && Grown(pt1, pt2, v + 1, end) && v < end
    ensures Grown(pt, pt2, v, end)
  {
    assert forall w :: Between(v, w, end) <==> Between(v, w, v + 1) || Between(v + 1, w, end);
  }

  lemma StillFree(pt: map<nat, Pte>, pt1: map<nat, Pte>, v: nat, end: nat)
    requires Grown(pt, pt1, v, v + 1) && forall w :: Between(v, w, end) ==> w !in pt
    ensures forall w :: Between(v + 1, w, end) ==> w !in pt1
  {
    forall w | Between(v + 1, w, end) ensures w !in pt1 { assert Between(v, w, end) && !Between(v, w, v + 1); }
  }

  /** Pages `[v, end)` of the area under construction were forked. */
  ghost predicate PagesForked(b: nat, m0: Machine, m: Machine, m1: Machine, p: nat, c: nat, na: Area, na1: Area, v: nat,
                              end: nat) {
    && Forking(b, m0, m1, p, c) && na1 == na.(frames := na1.frames) && Backed(na1, Pt(m1, c))
    && c in m.spaces && m1.spaces[c].areas == m.spaces[c].areas && Grown(Pt(m, c), Pt(m1, c), v, end)
  }

  lemma PagesForkedStep(b: nat, m0: Machine, m: Machine, m1: Machine, m2: Machine, p: nat, c: nat,
                        na: Area, v: nat, n: nat, na2: Area, end: nat)
    requires PageForked(b, m0, m, m1, p, c, na.perm, v, n) && v < end
    requires PagesForked(b, m0, m1, m2, p, c, na.(frames := na.frames[v := n]), na2, v + 1, end)
    ensures PagesForked(b, m0, m, m2, p, c, na, na2, v, end)
  {
    hide Forking, Backed, Grown;
    GrownTransitive(Pt(m, c), Pt(m1, c), Pt(m2, c), v, end);
  }

  lemma PagesForkedBase(b: nat, m0: Machine, m: Machine, p: nat, c: nat, na: Area)
    requires Forking(b, m0, m, p, c) && Backed(na, Pt(m, c))
    ensures PagesForked(b, m0, m, m, p, c, na, na, na.hi, na.hi)
  {
    hide Backed;
  }

  /** The inner loop: the child's area is backed, page for page, up to the end of the parent's. */
  lemma {:induction false} ForkPagesOk(b: nat, m0: Machine, m: Machine, p: nat, c: nat, a: Area, na: Area, v: nat)
    requires Sys(b, m0) && Forking(b, m0, m, p, c) && Backed(a, Pt(m0, p)) && a.lo <= v <= a.hi
    requires na == a.(frames := na.frames) && Backed(na.(hi := v), Pt(m, c))
    requires forall w :: Between(v, w, a.hi) ==> w !in Pt(m, c)
    ensures match ForkPages(m, p, c, a, na, v)
            case Ok((m1, na1)) => PagesForked(b, m0, m, m1, p, c, na, na1, v, a.hi)
            case OutOfMemory => true
            case Panic => false
    decreases a.hi - v
  {
    hide Sys, Forking, Backed, ForkPage, PagesForked, Grown;
    if v < a.hi {
      assert Between(v, v, a.hi) && Between(a.lo, v, a.hi);
      ForkPageOk(b, m0, m, p, c, a, v);
      var r := ForkPage(m, p, c, a, v);
      if r.Ok? {
        var (m1, n) := r.value;
        ForkRest(b, m0, m, m1, p, c, a, na, v, n);
        var na' := na.(frames := na.frames[v := n]);
        ForkPagesOk(b, m0, m1, p, c, a, na', v + 1);
        var r1 := ForkPages(m1, p, c, a, na', v + 1);
        if r1.Ok? { PagesForkedStep(b, m0, m, m1, r1.value.0, p, c, na, v, n, r1.value.1, a.hi); }
      }
    } else {
      assert na.(hi := v) == na;
      PagesForkedBase(b, m0, m, p, c, na);
    }
  }

  lemma ForkPageOk(b: nat, m0: Machine, m: Machine, p: nat, c: nat, a: Area, v: nat)
    requires Sys(b, m0) && Forking(b, m0, m, p, c) && Backed(a, Pt(m0, p)) && Between(a.lo, v, a.hi) && v !in Pt(m, c)
    ensures match ForkPage(m, p, c, a, v)
            case Ok((m1, n)) => PageForked(b, m0, m, m1, p, c, a.perm, v, n)
            case OutOfMemory => true
            case Panic => false
  {
    hide Sys, Forking, Backed, Grown;
    ParentPage(b, m0, m, p, c, a, v);
    if Pt(m, p)[v].perm.u {
      ForkUserPage(b, m0, m, p, c, a, v);
    } else {
      ForkKernelPage(b, m0, m, p, c, a, v);
    }
  }

  lemma ForkRest(b: nat, m0: Machine, m: Machine, m1: Machine, p: nat, c: nat, a: Area, na: Area, v: nat, n: nat)
    requires PageForked(b, m0, m, m1, p, c, a.perm, v, n) && a.lo <= v
    requires na == a.(frames := na.frames) && Backed(na.(hi := v), Pt(m, c))
    requires forall w :: Between(v, w, a.hi) ==> w !in Pt(m, c)
    ensures Backed(na.(hi := v + 1, frames := na.frames[v := n]), Pt(m1, c))
    ensures forall w :: Between(v + 1, w, a.hi) ==> w !in Pt(m1, c)
  {
    hide Forking;
    BackedStep(na, Pt(m, c), Pt(m1, c), v, n);
    StillFree(Pt(m, c), Pt(m1, c), v, a.hi);
  }

  // ----- the areas -----

  /** The child has forked areas `[0, i)`: same ranges and permissions, all pages in place, no other page. */
  ghost predicate AreasForked(m: Machine, c: nat, areas: seq<Area>, i: nat) {
    && i <= |areas| && c in m.spaces
    && var done := m.spaces[c].areas;
    && |done| == i && (forall k :: 0 <= k < i ==> done[k] == areas[k].(frames := done[k].frames))
    && AllBacked(done, Pt(m, c))
    && (forall w :: w in Pt(m, c) <==> InSome(areas[..i], w))
  }

  lemma InNext(areas: seq<Area>, i: nat, w: nat)
    requires i < |areas|
    ensures InSome(areas[..i + 1], w) <==> InSome(areas[..i], w) || Between(areas[i].lo, w, areas[i].hi)
  {
    assert areas[..i + 1] == areas[..i] + [areas[i]];
    InPushed(areas[..i], areas[i], w);
  }

  lemma NextFree(areas: seq<Area>, i: nat, w: nat)
    requires i < |areas| && Laid(areas) && Between(areas[i].lo, w, areas[i].hi)
    ensures !InSome(areas[..i], w)
  {
    forall k | 0 <= k < i ensures !Between(areas[..i][k].lo, w, areas[..i][k].hi) {
      assert Apart(areas[k], areas[i]);
    }
  }

  lemma AreaForked(b: nat, m0: Machine, m: Machine, m1: Machine, p: nat, c: nat, areas: seq<Area>, i: nat, na: Area)
    requires AreasForked(m, c, areas, i) && i < |areas| && Forking(b, m0, m1, p, c)
    requires na == areas[i].(frames := na.frames) && Backed(na, Pt(m1, c))
    requires m1.spaces[c].areas == m.spaces[c].areas && Grown(Pt(m, c), Pt(m1, c), areas[i].lo, areas[i].hi)
    ensures AreasForked(PushArea(m1, c, na), c, areas, i + 1) && Forking(b, m0, PushArea(m1, c, na), p, c)
  {
    hide Sys, Backed, InSome, CopiesOf, SamePromise;
    var done := m.spaces[c].areas;
    var m2 := PushArea(m1, c, na);
    assert Pt(m2, c) == Pt(m1, c);
    SysAreas(b, m1, c, done + [na]);
    forall k | 0 <= k < i + 1 ensures Backed((done + [na])[k], Pt(m1, c)) {
      if k < i { BackedGrown(done[k], Pt(m, c), Pt(m1, c)); }
    }
    forall w ensures w in Pt(m1, c) <==> InSome(areas[..i + 1], w) {
      InNext(areas, i, w);
    }
  }

  lemma {:induction false} ForkAreasOk(b: nat, m0: Machine, m: Machine, p: nat, c: nat, i: nat)
    requires Sys(b, m0) && Forking(b, m0, m, p, c) && AreaInv(m0.spaces[p])
    requires AreasForked(m, c, m0.spaces[p].areas, i)
    ensures var areas := m0.spaces[p].areas;
            match ForkAreas(m, p, c, areas, i)
            case Ok(m1) => Forking(b, m0, m1, p, c) && AreasForked(m1, c, areas, |areas|)
            case OutOfMemory => true
            case Panic => false
    decreases |m0.spaces[p].areas| - i
  {
    var areas := m0.spaces[p].areas;
    if i < |areas| {
      var a := areas[i];
      assert Backed(a, Pt(m0, p));
      forall w | Between(a.lo, w, a.hi) ensures w !in Pt(m, c) {
        NextFree(areas, i, w);
      }
      assert a.lo < a.hi;
      assert Backed(Area(a.lo, a.lo, a.perm, map[]), Pt(m, c));
      assert p in m0.spaces && c in m.spaces;
      hide Sys, AreasForked, Backed, AreaInv, Grown;
      var na := Area(a.lo, a.hi, a.perm, map[]);
      ForkPagesOk(b, m0, m, p, c, a, na, a.lo);
      if ForkPages(m, p, c, a, na, a.lo).Ok? {
        var (m1, na1) := ForkPages(m, p, c, a, na, a.lo).value;
        assert PagesForked(b, m0, m, m1, p, c, na, na1, a.lo, a.hi);
        AreaForked(b, m0, m, m1, p, c, areas, i, na1);
        ForkAreasOk(b, m0, PushArea(m1, c, na1), p, c, i + 1);
      }
    }
  }

  // ----- the whole fork -----

  lemma AreasSamePromise(s: Space, pt: map<nat, Pte>)
    requires AreaInv(s) && SamePromise(s.pt, pt)
    ensures AreaInv(Space(pt, s.areas))
  {
    forall i | 0 <= i < |s.areas| ensures Backed(s.areas[i], pt) {
      assert Backed(s.areas[i], s.pt);
    }
  }

  lemma ChildSpace(m: Machine, c: nat, s: Space)
    requires AreaInv(s) && AreasForked(m, c, s.areas, |s.areas|)
    ensures AreaInv(m.spaces[c]) && Pt(m, c).Keys == s.pt.Keys && Ranges(m.spaces[c].areas) == Ranges(s.areas)
  {
    hide InSome, Backed, Laid, Covered;
    assert s.areas[..|s.areas|] == s.areas;
    forall w ensures w in Pt(m, c) <==> w in s.pt {
      PageIffInArea(s, w);
    }
    SameShape(s.areas, m.spaces[c].areas, s.pt, Pt(m, c));
  }

  lemma ParentPages(b: nat, m0: Machine, m: Machine, p: nat, c: nat)
    requires Sys(b, m0) && Forking(b, m0, m, p, c)
    ensures SpaceView(m.spaces[p], m.mem) == SpaceView(m0.spaces[p], m0.mem)
  {
    hide Sys;
    LiveBytes(b, m0, m, p);
    assert Pages(m.spaces[p].pt, m.mem) == Pages(m0.spaces[p].pt, m0.mem);
  }

  /** After the fork the child sees what the parent saw, and everybody else sees what they saw. */
  lemma ForkedView(b: nat, m0: Machine, m: Machine, p: nat, c: nat)
    requires Inv(b, m0) && Forking(b, m0, m, p, c) && AreasForked(m, c, m0.spaces[p].areas, |m0.spaces[p].areas|)
    ensures Inv(b, m) && View(m) == State(View(m0).spaces[c := View(m0).spaces[p]], View(m0).zombies)
  {
    hide Sys, AreaInv, SamePromise, AreasForked;
    AreasSamePromise(m0.spaces[p], m.spaces[p].pt);
    ChildSpace(m, c, m0.spaces[p]);
    assert Pages(Pt(m, c), m.mem) == Pages(Pt(m0, p), m0.mem);
    ParentPages(b, m0, m, p, c);
    forall q | q in m0.spaces && q != p && q != c
        ensures SpaceView(m.spaces[q], m.mem) == SpaceView(m0.spaces[q], m0.mem) {
      ExtPages(b, m0, m, q, m0.spaces[q]);
    }
    assert View(m).spaces == View(m0).spaces[c := View(m0).spaces[p]];
  }

  lemma NewSpaceView(b: nat, m: Machine, m1: Machine, pid: nat)
    requires Inv(b, m) && Ext(m, m1) && pid !in m.tables
    requires m1.spaces == m.spaces[pid := Space(map[], [])] && m1.tables.Keys == m.tables.Keys + {pid}
    ensures View(m1) == State(View(m).spaces[pid := PrivateSpace(map[], [])], View(m).zombies)
    ensures pid !in m.spaces
  {
    hide Sys, AreaInv, SpaceView, Ext;
    NoSlots(b, m, pid);
    forall q | q in m.spaces ensures SpaceView(m1.spaces[q], m1.mem) == SpaceView(m.spaces[q], m.mem) {
      ExtPages(b, m, m1, q, m.spaces[q]);
    }
    EmptyView(m1.mem);
    assert View(m1).spaces == View(m).spaces[pid := PrivateSpace(map[], [])];
  }

  lemma EmptyView(mem: seq<Page>)
    ensures SpaceView(Space(map[], []), mem) == PrivateSpace(map[], [])
  {
  }

  /** The copy-on-write fork is the eager fork. */
  lemma ForkSpaceOk(b: nat, m: Machine, p: nat, c: nat)
    requires Inv(b, m) && p in m.spaces && c !in m.tables
    ensures match ForkSpace(m, p, c)
            case Ok(m1) => Inv(b, m1) && View(m1) == State(View(m).spaces[c := View(m).spaces[p]], View(m).zombies)
            case OutOfMemory => true
            case Panic => false
  {
    hide Sys, AreaInv, View, NewSpace, ForkAreas, Ext, Forking, AreasForked;
    NewSpaceOk(b, m, c);
    if NewSpace(m, c).Ok? {
      var m0 := NewSpace(m, c).value;
      NewSpaceView(b, m, m0, c);
      StartFork(b, m0, p, c);
      ForkAreasOk(b, m0, m0, p, c, 0);
      assert m0.spaces[p] == m.spaces[p];
      var r := ForkAreas(m0, p, c, m.spaces[p].areas, 0);
      if r.Ok? {
        ForkedView(b, m0, r.value, p, c);
        ViewKeys(m, p);
        ViewKeys(m0, c);
      }
    }
  }

  lemma ViewKeys(m: Machine, p: nat)
    requires p in m.spaces
    ensures p in View(m).spaces
  {
  }

  lemma StartFork(b: nat, m0: Machine, p: nat, c: nat)
    requires Sys(b, m0) && p in m0.spaces && c in m0.spaces && p != c && m0.spaces[c] == Space(map[], [])
    ensures Forking(b, m0, m0, p, c) && AreasForked(m0, c, m0.spaces[p].areas, 0)
  {
    hide Sys;
    assert m0.spaces[p].areas[..0] == [];
  }
}
