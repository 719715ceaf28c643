/**
 The physical frame allocator (os/src/mm/frame_allocator.rs).

 `Frames` is the value of the allocator's fields and says what each operation
 does to them; the class `StackFrameAllocator` performs the operations on
 fields.  A ghost map from slots to frames records where every live
 `FrameTracker` is stored, so that "the reference count of a frame is the
 number of its live trackers" can be said at all.
 */
module FrameAllocator {
  import opened Sequences
  import opened Wrappers

  /** The place that stores one `FrameTracker`: a page of an area, a table of a page table, or a local variable. */
  datatype Slot = Data(pid: nat, vpn: nat) | Table(pid: nat, index: nat) | Local

  datatype Frames = Frames(current: nat, end: nat, recycled: seq<nat>, refCounts: map<nat, nat>) {
    /** `alloc`: a recycled frame first, then the next fresh one; the source asserts that it has no count yet. */
    function Alloc(): Outcome<(nat, Frames)> {
      if |recycled| > 0 then
        var n := |recycled| - 1;
        if recycled[n] in refCounts then Panic
        else Ok((recycled[n], Frames(current, end, recycled[..n], refCounts[recycled[n] := 1])))
      else if current == end then OutOfMemory
      else if current in refCounts then Panic
      else Ok((current, Frames(current + 1, end, recycled, refCounts[current := 1])))
    }

    /** `FrameTracker::clone`. */
    function AddRef(p: nat): Outcome<Frames> {
      if p !in refCounts then Panic else Ok(this.(refCounts := refCounts[p := refCounts[p] + 1]))
    }

    /** Dropping a `FrameTracker`. */
    function Dealloc(p: nat): Outcome<Frames> {
      if p !in refCounts || refCounts[p] == 0 then Panic
      else if refCounts[p] == 1 then Ok(this.(refCounts := refCounts - {p}, recycled := recycled + [p]))
      else Ok(this.(refCounts := refCounts[p := refCounts[p] - 1]))
    }

    function Free(): int { end - current + |recycled| }
  }

  type Trackers = map<Slot, nat>

  /** The slots whose tracker names frame `p`. */
  ghost function Holders(trk: Trackers, p: nat): set<Slot> {
    set s | s in trk && trk[s] == p
  }

  /** Allocated and recycled frames partition the issued range `[start, current)`. */
  ghost predicate Partition(start: nat, f: Frames) {
    && start <= f.current <= f.end
    && Distinct(f.recycled)
    && (forall p :: p in f.recycled ==> start <= p < f.current)
    && (forall p :: p in f.refCounts <==> start <= p < f.current && p !in f.recycled)
  }

  /** Every count is the number of live trackers of its frame. */
  ghost predicate Counted(rc: map<nat, nat>, trk: Trackers) {
    && (forall p :: p in rc ==> 0 < rc[p] == |Holders(trk, p)|)
    && (forall s :: s in trk ==> trk[s] in rc)
  }

  ghost predicate FramesOk(start: nat, f: Frames, trk: Trackers) {
    Partition(start, f) && Counted(f.refCounts, trk)
  }

  // ----- counting holders -----

  lemma HoldersAfterInsert(trk: Trackers, s: Slot, p: nat)
    requires s !in trk
    ensures |Holders(trk[s := p], p)| == |Holders(trk, p)| + 1
    ensures forall q :: q != p ==> Holders(trk[s := p], q) == Holders(trk, q)
  {
    assert Holders(trk[s := p], p) == Holders(trk, p) + {s};
  }

  lemma HoldersAfterRemove(trk: Trackers, s: Slot)
    requires s in trk
    ensures |Holders(trk - {s}, trk[s])| == |Holders(trk, trk[s])| - 1
    ensures forall q :: q != trk[s] ==> Holders(trk - {s}, q) == Holders(trk, q)
  {
    assert Holders(trk - {s}, trk[s]) == Holders(trk, trk[s]) - {s};
  }

  /** Exchanging the trackers of two slots leaves every count alone. */
  lemma CountedAfterExchange(rc: map<nat, nat>, trk: Trackers, s: Slot, t: Slot)
    requires Counted(rc, trk) && s in trk && t in trk && s != t
    ensures Counted(rc, trk[s := trk[t]][t := trk[s]])
  {
    var base, a, b := trk - {s, t}, trk[s], trk[t];
    assert trk == base[s := a][t := b];
    var after := trk[s := b][t := a];
    assert after == base[s := b][t := a];
    forall p | p in rc ensures |Holders(after, p)| == |Holders(trk, p)| {
      HoldersAfterTwo(base, s, a, t, b, p);
      HoldersAfterTwo(base, s, b, t, a, p);
    }
  }

  lemma HoldersAfterTwo(base: Trackers, s: Slot, a: nat, t: Slot, b: nat, p: nat)
    requires s !in base && t !in base && s != t
    ensures |Holders(base[s := a][t := b], p)| ==
            |Holders(base, p)| + (if a == p then 1 else 0) + (if b == p then 1 else 0)
  {
    HoldersAfterInsert(base, s, a);
    assert |Holders(base[s := a], p)| == |Holders(base, p)| + (if a == p then 1 else 0);
    HoldersAfterInsert(base[s := a], t, b);
  }

  /** A frame counted once has one holder. */
  lemma Exclusive(rc: map<nat, nat>, trk: Trackers, s: Slot)
    requires Counted(rc, trk) && s in trk && rc[trk[s]] == 1
    ensures forall t :: t in trk && trk[t] == trk[s] ==> t == s
  {
    forall t | t in trk && trk[t] == trk[s] ensures t == s {
      var h := Holders(trk, trk[s]);
      assert h == {s} + (h - {s});
      assert t in h;
    }
  }

  // ----- what each operation keeps -----

  /** `alloc` hands out a frame nobody holds, and fails only when none is left. */
  lemma AllocKeeps(start: nat, f: Frames, trk: Trackers, s: Slot)
    requires FramesOk(start, f, trk) && s !in trk
    ensures match f.Alloc()
            case Ok((p, f')) =>
              && start <= p < f.end && p !in f.refCounts && f'.refCounts == f.refCounts[p := 1]
              && f'.end == f.end && f'.Free() == f.Free() - 1 && FramesOk(start, f', trk[s := p])
            case OutOfMemory => f.Free() == 0
            case Panic => false
  {
    assert |f.recycled| > 0 ==> f.recycled[|f.recycled| - 1] in f.recycled;
    if f.Alloc().Ok? {
      var (p, f') := f.Alloc().value;
      if |f.recycled| > 0 {
        assert forall q :: q in f'.recycled ==> q in f.recycled;
        assert forall q :: q in f.recycled ==> q in f'.recycled || q == p;
      }
      HoldersAfterInsert(trk, s, p);
      assert Holders(trk, p) == {};
    }
  }

  lemma AddRefKeeps(start: nat, f: Frames, trk: Trackers, p: nat, s: Slot)
    requires FramesOk(start, f, trk) && s !in trk && p in f.refCounts
    ensures f.AddRef(p).Ok? && FramesOk(start, f.AddRef(p).value, trk[s := p])
  {
    HoldersAfterInsert(trk, s, p);
  }

  /** A frame returns to `recycled` exactly when its last tracker goes. */
  lemma DeallocKeeps(start: nat, f: Frames, trk: Trackers, s: Slot)
    requires FramesOk(start, f, trk) && s in trk
    ensures f.Dealloc(trk[s]).Ok? && FramesOk(start, f.Dealloc(trk[s]).value, trk - {s})
  {
    var p, trk' := trk[s], trk - {s};
    var f' := f.Dealloc(p).value;
    HoldersAfterRemove(trk, s);
    if f.refCounts[p] == 1 {
      assert Holders(trk', p) == {};
      assert forall t :: t in trk' && trk'[t] == p ==> t in Holders(trk', p);
      assert forall q :: q in f'.recycled <==> q in f.recycled || q == p;
    }
  }

  // ----- conservation -----

  /** The numbers from `lo` up to, not including, `hi`. */
  ghost function Interval(lo: nat, hi: nat): (r: set<nat>)
    requires lo <= hi
    ensures forall p :: p in r <==> lo <= p < hi
    ensures |r| == hi - lo
    decreases hi
  {
    if lo == hi then {} else Interval(lo, hi - 1) + {hi - 1}
  }

  ghost function Elements(s: seq<nat>): set<nat> {
    set x | x in s
  }

  lemma {:induction false} DistinctElements(s: seq<nat>)
    requires Distinct(s)
    ensures |Elements(s)| == |s|
  {
    if s != [] {
      var front := s[..|s| - 1];
      DistinctElements(front);
      assert Elements(s) == Elements(front) + {s[|s| - 1]};
    }
  }

  /** Recycled frames go out again before fresh ones, the last one given back first. */
  lemma LastBackFirst(f: Frames, p: nat)
    requires p in f.refCounts && f.refCounts[p] == 1
    ensures f.Dealloc(p).Ok? && f.Dealloc(p).value.Alloc().Ok?
    ensures var (q, f2) := f.Dealloc(p).value.Alloc().value;
            q == p && f2 == f
  {
    var f1 := f.Dealloc(p).value;
    assert f1.recycled[..|f.recycled|] == f.recycled;
    assert (f.refCounts - {p})[p := 1] == f.refCounts;
  }

  /** A fresh frame is the next of the range, and only when nothing is recycled. */
  lemma FreshIsNext(f: Frames)
    requires f.recycled == [] && f.current != f.end && f.current !in f.refCounts
    ensures f.Alloc() == Ok((f.current, Frames(f.current + 1, f.end, [], f.refCounts[f.current := 1])))
  {
  }

  /** Frames are neither created nor lost: allocated plus free is the whole range. */
  lemma Conservation(start: nat, f: Frames)
    requires Partition(start, f)
    ensures |f.refCounts| + f.Free() == f.end - start
  {
    assert f.refCounts.Keys + Elements(f.recycled) == Interval(start, f.current);
    assert f.refCounts.Keys !! Elements(f.recycled);
    DistinctElements(f.recycled);
  }

  /** The allocator object; each method does to its fields what the function of the same name says. */
  class StackFrameAllocator {
    var current: nat
    var end: nat
    var recycled: seq<nat>
    var refCounts: map<nat, nat>

    function State(): Frames
      reads this
    {
      Frames(current, end, recycled, refCounts)
    }

    /** `new` followed by `init`. */
    constructor (l: nat, r: nat)
      requires l <= r
      ensures State() == Frames(l, r, [], map[]) && FramesOk(l, State(), map[])
    {
      current, end, recycled, refCounts := l, r, [], map[];
    }

    method Alloc() returns (r: Outcome<nat>)
      modifies this
      ensures match old(State()).Alloc()
              case Ok((p, f)) => r == Ok(p) && State() == f
              case OutOfMemory => r == OutOfMemory && State() == old(State())
              case Panic => r == Panic
    {
      var ppn;
      if |recycled| > 0 {
        ppn := recycled[|recycled| - 1];
        recycled := recycled[..|recycled| - 1];
      } else if current == end {
        return OutOfMemory;
      } else {
        ppn := current;
        current := current + 1;
      }
      if ppn in refCounts { return Panic; }
      refCounts := refCounts[ppn := 1];
      return Ok(ppn);
    }

    method AddRef(p: nat) returns (r: Outcome<()>)
      modifies this
      ensures match old(State()).AddRef(p)
              case Ok(f) => r == Ok(()) && State() == f
              case _ => r == Panic
    {
      if p !in refCounts { return Panic; }
      refCounts := refCounts[p := refCounts[p] + 1];
      return Ok(());
    }

    method Dealloc(p: nat) returns (r: Outcome<()>)
      modifies this
      ensures match old(State()).Dealloc(p)
              case Ok(f) => r == Ok(()) && State() == f
              case _ => r == Panic
    {
      if p !in refCounts || refCounts[p] == 0 { return Panic; }
      var count := refCounts[p] - 1;
      if count == 0 {
        refCounts := refCounts - {p};
        recycled := recycled + [p];
      } else {
        refCounts := refCounts[p := count];
      }
      return Ok(());
    }
  }
}
