/**
 The bounded buffer makes progress: whoever runs, as long as it is not
 blocked, an item is taken out within a number of steps that depends only on
 how many threads there are.
 */
module BufferProgress {
  import opened Sequences
  import opened BoundedBuffer

  /** How far a thread is from putting an item in, or from taking one out. */
  function Rank(pc: Pc): nat {
    match pc
    case PUpMutex => 8
    case PUpAvail => 7
    case PDownEmpty => 6
    case PBlockEmpty => 5
    case PDownMutex => 4
    case PBlockMutex => 3
    case PWrite => 2
    case PAdvance => 1
    case CAdvance => 8
    case CUpMutex => 7
    case CUpEmpty => 6
    case CDownAvail => 5
    case CBlockAvail => 4
    case CDownMutex => 3
    case CBlockMutex => 2
    case CRead => 1
  }

  function Ranks(pcs: seq<Pc>): nat { if pcs == [] then 0 else Rank(pcs[0]) + Ranks(pcs[1..]) }

  lemma {:induction false} RanksUpdate(pcs: seq<Pc>, i: nat, pc: Pc)
    requires i < |pcs|
    ensures Ranks(pcs[i := pc]) + Rank(pcs[i]) == Ranks(pcs) + Rank(pc)
  {
    hide Rank;
    if i > 0 {
      assert pcs[i := pc][1..] == pcs[1..][i - 1 := pc];
      RanksUpdate(pcs[1..], i - 1, pc);
    }
  }

  lemma {:induction false} RanksBound(pcs: seq<Pc>)
    ensures Ranks(pcs) <= 8 * |pcs|
  {
    if pcs != [] { RanksBound(pcs[1..]); }
  }

  /** Items that can still be put in before one is taken out, eight steps each, and the ranks. */
  function Measure(s: State): int { 8 * (8 + |s.seen| - |s.inserted|) + Ranks(s.pcs) }

  lemma MeasureBound(s: State)
    requires Inv(s)
    ensures 0 <= Measure(s) <= 64 + 8 * |s.pcs|
  {
    hide Queues, Sum;
    RanksBound(s.pcs);
  }

  /** What a step does to the items: advancing the tail puts one in, reading takes one out, nothing else does either. */
  lemma StepItems(s: State, t: Tid)
    requires Inv(s) && t < |s.pcs|
    ensures Step(s, t).inserted == s.inserted + (if s.pcs[t].PAdvance? then [t] else [])
    ensures |Step(s, t).seen| == |s.seen| + if s.pcs[t].CRead? then 1 else 0
    ensures s.pcs[t].CRead? ==> |s.seen| < |s.inserted| && Step(s, t).seen == s.seen + [s.inserted[|s.seen|]]
  {
    assert |s.buffer| == BUFFER_SIZE && s.front < BUFFER_SIZE && s.tail < BUFFER_SIZE by { RingShape(s); }
    StepInv(s, t);
    hide Queues, Tokens, Sum, Inv;
    if s.pcs[t].CRead? { SeenNext(s, Step(s, t)); }
  }

  lemma SeenNext(s: State, s1: State)
    requires Ring(s) && Ring(s1) && s1.inserted == s.inserted && |s1.seen| == |s.seen| + 1
    requires s1.seen[..|s.seen|] == s.seen
    ensures |s.seen| < |s.inserted| && s1.seen == s.seen + [s.inserted[|s.seen|]]
  {
    hide Sum;
  }

  /** Only `t` moves, and the thread it wakes, if any. */
  lemma PcsAfter(s: State, t: Tid) returns (w: Tid)
    requires Inv(s) && t < |s.pcs|
    ensures var moved := s.pcs[t := NextPc(s, t)];
            if w < |s.pcs| then
              w != t && IsBlocked(s.pcs[w]) && Step(s, t).pcs == moved[w := After(s.pcs[w])]
            else Step(s, t).pcs == moved
  {
    hide Queues, Tokens, Ring, NextPc, UpWakes, Raised, IsBlocked, After;
    RingShape(s);
    StepParts(s, t);
    StepPcs(s, t);
    hide Step;
    var moved := s.pcs[t := NextPc(s, t)];
    if v: nat :| v < |s.pcs| && Wakes(s, t, v) {
      w := v;
      WokenIsBlocked(s, t, w);
      OneWoken(s, t, w);
      assert Step(s, t).pcs == moved[w := After(s.pcs[w])];
    } else {
      w := |s.pcs|;
      assert Step(s, t).pcs == moved;
    }
  }

  lemma NextLower(s: State, t: Tid)
    requires t < |s.pcs| && !IsBlocked(s.pcs[t]) && !s.pcs[t].CRead?
    ensures Rank(NextPc(s, t)) < Rank(s.pcs[t]) + if s.pcs[t].PAdvance? then 8 else 0
  {
    hide DownBlocks;
  }

  lemma WokenLower(pc: Pc)
    requires IsBlocked(pc)
    ensures Rank(After(pc)) < Rank(pc)
  {
  }

  /** A step of a thread that is not blocked takes an item out or brings that closer. */
  lemma StepMeasure(s: State, t: Tid)
    requires Inv(s) && t < |s.pcs| && !IsBlocked(s.pcs[t])
    ensures |Step(s, t).pcs| == |s.pcs|
    ensures !s.pcs[t].CRead? ==> Measure(Step(s, t)) < Measure(s)
  {
    hide Queues, Tokens, Ring, Ranks, Rank, NextPc, After;
    RingShape(s);
    hide Step;
    StepItems(s, t);
    var w := PcsAfter(s, t);
    var moved := s.pcs[t := NextPc(s, t)];
    RanksUpdate(s.pcs, t, NextPc(s, t));
    if !s.pcs[t].CRead? { NextLower(s, t); }
    if w < |s.pcs| {
      RanksUpdate(moved, w, After(s.pcs[w]));
      WokenLower(s.pcs[w]);
    }
  }

  lemma OneWoken(s: State, t: Tid, w: Tid)
    requires t < |s.pcs| && Wakes(s, t, w)
    ensures forall i :: Wakes(s, t, i) ==> i == w
  {
  }

  /** Every thread of the schedule can take its step when it comes. */
  ghost predicate Active(s: State, schedule: seq<Tid>)
    requires Inv(s)
    decreases |schedule|
  {
    schedule == [] ||
    (schedule[0] < |s.pcs| && !IsBlocked(s.pcs[schedule[0]]) && Inv(Step(s, schedule[0]))
     && Active(Step(s, schedule[0]), schedule[1..]))
  }

  lemma {:induction false} ActiveInRange(s: State, schedule: seq<Tid>)
    requires Inv(s) && Active(s, schedule)
    ensures forall k :: 0 <= k < |schedule| ==> schedule[k] < |s.pcs|
    decreases |schedule|
  {
    hide Queues, Tokens, Ring, Step;
    if schedule != [] {
      RingShape(s);
      StepPcs(s, schedule[0]);
      ActiveInRange(Step(s, schedule[0]), schedule[1..]);
    }
  }

  lemma {:induction false} SeenGrows(s: State, schedule: seq<Tid>)
    requires Inv(s) && forall k :: 0 <= k < |schedule| ==> schedule[k] < |s.pcs|
    ensures |Run(s, schedule).seen| >= |s.seen|
    decreases |schedule|
  {
    hide Queues, Tokens, Ring, Step;
    if schedule != [] {
      RingShape(s);
      StepInv(s, schedule[0]);
      StepPcs(s, schedule[0]);
      StepItems(s, schedule[0]);
      SeenGrows(Step(s, schedule[0]), schedule[1..]);
    }
  }

  lemma {:induction false} RunConsumes(s: State, schedule: seq<Tid>)
    requires Inv(s) && Active(s, schedule) && |schedule| > Measure(s)
    ensures forall k :: 0 <= k < |schedule| ==> schedule[k] < |s.pcs|
    ensures |Run(s, schedule).seen| > |s.seen|
    decreases |schedule|
  {
    hide Queues, Tokens, Ring, Step, Measure;
    RingShape(s);
    ActiveInRange(s, schedule);
    MeasureBound(s);
    var t := schedule[0];
    StepInv(s, t);
    StepItems(s, t);
    StepMeasure(s, t);
    if s.pcs[t].CRead? {
      SeenGrows(Step(s, t), schedule[1..]);
    } else {
      RunConsumes(Step(s, t), schedule[1..]);
    }
  }

  /** Progress: with `n` threads, from every reachable state, any 65 + 8n steps of threads that are not blocked take an
      item out, and with a producer and a consumer some thread is not blocked. */
  lemma Progress(s: State, before: seq<Tid>, schedule: seq<Tid>, p: Tid, c: Tid)
    requires Initial(s) && Inv(s) && forall k :: 0 <= k < |before| ==> before[k] < |s.pcs|
    requires p < |s.pcs| && c < |s.pcs| && s.pcs[p].PDownEmpty? && s.pcs[c].CDownAvail?
    ensures var r := Run(s, before);
            && Inv(r) && (exists i :: 0 <= i < |r.pcs| && !IsBlocked(r.pcs[i]))
            && (Active(r, schedule) && |schedule| > 64 + 8 * |s.pcs| ==>
                 && (forall k :: 0 <= k < |schedule| ==> schedule[k] < |r.pcs|)
                 && |Run(r, schedule).seen| > |r.seen|)
  {
    hide Step, Measure, Queues, Tokens, Ring;
    NoDeadlock(s, before, p, c);
    RunInv(s, before);
    var r := Run(s, before);
    MeasureBound(r);
    if Active(r, schedule) && |schedule| > 64 + 8 * |s.pcs| { RunConsumes(r, schedule); }
  }
}
