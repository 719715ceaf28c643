/**
 The bounded buffer over three semaphores (user/src/bin/mpsc_sem.rs,
 os/src/sync/semaphore.rs), any number of producers and consumers.  Every
 semaphore call, buffer access and index update is a step of its own.
 */
module BoundedBuffer {
  import opened Sequences

  const BUFFER_SIZE := 8

  type Tid = nat

  /** A kernel semaphore. */
  datatype Semaphore = Semaphore(count: int, queue: seq<Tid>)

  /** What a thread does next, or the semaphore it is blocked on. */
  datatype Pc =
    | PDownEmpty | PBlockEmpty | PDownMutex | PBlockMutex | PWrite | PAdvance | PUpMutex | PUpAvail
    | CDownAvail | CBlockAvail | CDownMutex | CBlockMutex | CRead | CAdvance | CUpMutex | CUpEmpty

  /** Shared memory, the semaphores, and the history: what was put in and what was taken out, in order. */
  datatype State = State(
    mutex: Semaphore, empty: Semaphore, avail: Semaphore,
    buffer: seq<nat>, front: nat, tail: nat, pcs: seq<Pc>,
    inserted: seq<nat>, seen: seq<nat>)

  // ----- semaphores -----

  /** `down`: `blocks` says the caller joined the queue. */
  function Down(s: Semaphore, t: Tid): Semaphore {
    if s.count - 1 < 0 then Semaphore(s.count - 1, s.queue + [t]) else Semaphore(s.count - 1, s.queue)
  }

  predicate DownBlocks(s: Semaphore) { s.count - 1 < 0 }

  /** `up`: the first waiter, if any, is woken. */
  function Up(s: Semaphore): Semaphore {
    Semaphore(s.count + 1, if s.count + 1 <= 0 && s.queue != [] then s.queue[1..] else s.queue)
  }

  predicate UpWakes(s: Semaphore) { s.count + 1 <= 0 && s.queue != [] }

  function Max0(x: int): nat { if x < 0 then 0 else x }

  /** The queue's length is `max(0, -count)`. */
  predicate Balanced(s: Semaphore) { |s.queue| == Max0(-s.count) }

  lemma SemaphoreBalance(s: Semaphore, t: Tid)
    requires Balanced(s)
    ensures Balanced(Down(s, t)) && Balanced(Up(s)) && (UpWakes(s) <==> s.queue != [])
    ensures Max0(Down(s, t).count) == Max0(s.count) - if DownBlocks(s) then 0 else 1
    ensures Max0(Up(s).count) == Max0(s.count) + if UpWakes(s) then 0 else 1
  {
  }

  // ----- steps -----

  /** Where a blocked thread goes on. */
  function After(pc: Pc): Pc {
    match pc
    case PBlockEmpty => PDownMutex
    case PBlockMutex => PWrite
    case CBlockAvail => CDownMutex
    case CBlockMutex => CRead
    case _ => pc
  }

  function Wake(pcs: seq<Pc>, s: Semaphore): seq<Pc> {
    if UpWakes(s) && s.queue[0] < |pcs| then pcs[s.queue[0] := After(pcs[s.queue[0]])] else pcs
  }

  /** One step of thread `t`; a blocked thread has none.  A producer puts its own id. */
  function Step(s: State, t: Tid): State
    requires t < |s.pcs| && |s.buffer| == BUFFER_SIZE && s.front < BUFFER_SIZE && s.tail < BUFFER_SIZE
  {
    match s.pcs[t]
    case PDownEmpty => s.(empty := Down(s.empty, t), pcs := s.pcs[t := if DownBlocks(s.empty) then PBlockEmpty
        else PDownMutex])
    case PDownMutex => s.(mutex := Down(s.mutex, t), pcs := s.pcs[t := if DownBlocks(s.mutex) then PBlockMutex
        else PWrite])
    case PWrite => s.(buffer := s.buffer[s.tail := t], pcs := s.pcs[t := PAdvance])
    case PAdvance => s.(tail := (s.tail + 1) % BUFFER_SIZE, inserted := s.inserted + [t], pcs := s.pcs[t := PUpMutex])
    case PUpMutex => s.(mutex := Up(s.mutex), pcs := Wake(s.pcs[t := PUpAvail], s.mutex))
    case PUpAvail => s.(avail := Up(s.avail), pcs := Wake(s.pcs[t := PDownEmpty], s.avail))
    case CDownAvail => s.(avail := Down(s.avail, t), pcs := s.pcs[t := if DownBlocks(s.avail) then CBlockAvail
        else CDownMutex])
    case CDownMutex => s.(mutex := Down(s.mutex, t), pcs := s.pcs[t := if DownBlocks(s.mutex) then CBlockMutex
        else CRead])
    case CRead => s.(seen := s.seen + [s.buffer[s.front]], pcs := s.pcs[t := CAdvance])
    case CAdvance => s.(front := (s.front + 1) % BUFFER_SIZE, pcs := s.pcs[t := CUpMutex])
    case CUpMutex => s.(mutex := Up(s.mutex), pcs := Wake(s.pcs[t := CUpEmpty], s.mutex))
    case CUpEmpty => s.(empty := Up(s.empty), pcs := Wake(s.pcs[t := CDownAvail], s.empty))
    case _ => s
  }

  // ----- counting threads -----

  /** Roles whose threads are counted. */
  datatype Role = HasEmpty | OwesAvail | HasAvail | OwesEmpty | InMutex | ReadNotAdvanced

  function Weight(r: Role, pc: Pc): nat {
    match r
    case HasEmpty => if pc.PDownMutex? || pc.PBlockMutex? || pc.PWrite? || pc.PAdvance? then 1 else 0
    case OwesAvail => if pc.PUpMutex? || pc.PUpAvail? then 1 else 0
    case HasAvail => if pc.CDownMutex? || pc.CBlockMutex? || pc.CRead? || pc.CAdvance? then 1 else 0
    case OwesEmpty => if pc.CUpMutex? || pc.CUpEmpty? then 1 else 0
    case InMutex => if pc.PWrite? || pc.PAdvance? || pc.PUpMutex? || pc.CRead? || pc.CAdvance? || pc.CUpMutex? then 1
        else 0
    case ReadNotAdvanced => if pc.CAdvance? then 1 else 0
  }

  function Sum(r: Role, pcs: seq<Pc>): nat { if pcs == [] then 0 else Weight(r, pcs[0]) + Sum(r, pcs[1..]) }

  lemma {:induction false} SumUpdate(r: Role, pcs: seq<Pc>, i: nat, pc: Pc)
    requires i < |pcs|
    ensures Sum(r, pcs[i := pc]) + Weight(r, pcs[i]) == Sum(r, pcs) + Weight(r, pc)
  {
    hide Weight;
    if i > 0 {
      assert pcs[i := pc][1..] == pcs[1..][i - 1 := pc];
      SumUpdate(r, pcs[1..], i - 1, pc);
    }
  }

  lemma {:induction false} SumAtLeast(r: Role, pcs: seq<Pc>, i: nat)
    requires i < |pcs|
    ensures Sum(r, pcs) >= Weight(r, pcs[i])
  {
    hide Weight;
    if i > 0 { SumAtLeast(r, pcs[1..], i - 1); }
  }

  lemma {:induction false} SumPair(r: Role, pcs: seq<Pc>, i: nat, j: nat)
    requires i < j < |pcs|
    ensures Sum(r, pcs) >= Weight(r, pcs[i]) + Weight(r, pcs[j])
  {
    hide Weight;
    if i > 0 { SumPair(r, pcs[1..], i - 1, j - 1); } else { SumAtLeast(r, pcs[1..], j - 1); }
  }

  // ----- the invariant -----

  predicate Blocked(s: State, t: Tid, pc: Pc) { t < |s.pcs| && s.pcs[t] == pc }

  /** Each queue holds exactly the threads blocked on it, once, and has the length the count says. */
  ghost predicate Queues(s: State) {
    && Balanced(s.mutex) && Balanced(s.empty) && Balanced(s.avail)
    && Distinct(s.mutex.queue) && Distinct(s.empty.queue) && Distinct(s.avail.queue)
    && (forall t :: t in s.mutex.queue <==> Blocked(s, t, PBlockMutex) || Blocked(s, t, CBlockMutex))
    && (forall t :: t in s.empty.queue <==> Blocked(s, t, PBlockEmpty))
    && forall t :: t in s.avail.queue <==> Blocked(s, t, CBlockAvail)
  }

  /** Taken out for good: read and the index advanced. */
  function Removed(s: State): int { |s.seen| - Sum(ReadNotAdvanced, s.pcs) }

  /** Every permit is somewhere: free slots, items and the mutex, in the counts or in a thread's hands. */
  ghost predicate Tokens(s: State) {
    && Max0(s.mutex.count) + Sum(InMutex, s.pcs) == 1
    && Max0(s.empty.count) + Sum(HasEmpty, s.pcs) + (|s.inserted| - Removed(s)) + Sum(OwesEmpty, s.pcs) == BUFFER_SIZE
    && Max0(s.avail.count) + Sum(OwesAvail, s.pcs) + Sum(HasAvail, s.pcs) == |s.inserted| - Removed(s)
  }

  /** What is seen is a prefix of what was put in; the rest, up to BUFFER_SIZE items, stands in the ring in order. */
  ghost predicate Ring(s: State) {
    && |s.buffer| == BUFFER_SIZE && 0 <= Removed(s) <= |s.seen| <= |s.inserted|
    && s.tail == |s.inserted| % BUFFER_SIZE && s.front == Removed(s) % BUFFER_SIZE
    && s.seen == s.inserted[..|s.seen|]
    && (forall k :: Removed(s) <= k < |s.inserted| ==> s.buffer[k % BUFFER_SIZE] == s.inserted[k])
    && forall t :: 0 <= t < |s.pcs| && s.pcs[t].PAdvance? ==> s.buffer[s.tail] == t
  }

  ghost predicate Inv(s: State) { Queues(s) && Tokens(s) && Ring(s) }

  // ----- queues -----

  /** The semaphore a thread at `pc` is about to raise. */
  function Raised(s: State, pc: Pc): Semaphore {
    match pc
    case PUpMutex => s.mutex
    case CUpMutex => s.mutex
    case PUpAvail => s.avail
    case CUpEmpty => s.empty
    case _ => Semaphore(0, [])
  }

  /** The blocked thread that `t`'s step wakes, if it wakes one. */
  predicate Wakes(s: State, t: Tid, w: Tid)
    requires t < |s.pcs|
  {
    UpWakes(Raised(s, s.pcs[t])) && Raised(s, s.pcs[t]).queue[0] == w
  }

  predicate IsBlocked(pc: Pc) { pc.PBlockEmpty? || pc.PBlockMutex? || pc.CBlockAvail? || pc.CBlockMutex? }

  lemma WokenIsBlocked(s: State, t: Tid, w: Tid)
    requires Queues(s) && t < |s.pcs| && Wakes(s, t, w)
    ensures w < |s.pcs| && IsBlocked(s.pcs[w]) && w != t
    ensures s.pcs[t].PUpMutex? || s.pcs[t].CUpMutex? ==> s.pcs[w].PBlockMutex? || s.pcs[w].CBlockMutex?
    ensures s.pcs[t].PUpAvail? ==> s.pcs[w].CBlockAvail?
    ensures s.pcs[t].CUpEmpty? ==> s.pcs[w].PBlockEmpty?
  {
    var q := Raised(s, s.pcs[t]).queue;
    assert q[0] in q;
  }

  /** Where `t` itself goes. */
  function NextPc(s: State, t: Tid): Pc
    requires t < |s.pcs|
  {
    match s.pcs[t]
    case PDownEmpty => if DownBlocks(s.empty) then PBlockEmpty else PDownMutex
    case PDownMutex => if DownBlocks(s.mutex) then PBlockMutex else PWrite
    case PWrite => PAdvance
    case PAdvance => PUpMutex
    case PUpMutex => PUpAvail
    case PUpAvail => PDownEmpty
    case CDownAvail => if DownBlocks(s.avail) then CBlockAvail else CDownMutex
    case CDownMutex => if DownBlocks(s.mutex) then CBlockMutex else CRead
    case CRead => CAdvance
    case CAdvance => CUpMutex
    case CUpMutex => CUpEmpty
    case CUpEmpty => CDownAvail
    case pc => pc
  }

  /** Which semaphore a step touches. */
  lemma StepParts(s: State, t: Tid)
    requires Inv(s) && t < |s.pcs|
    ensures var s1, pc := Step(s, t), s.pcs[t];
            && s1.mutex == (if pc.PDownMutex? || pc.CDownMutex? then Down(s.mutex, t)
                else if pc.PUpMutex? || pc.CUpMutex? then Up(s.mutex) else s.mutex)
            && s1.empty == (if pc.PDownEmpty? then Down(s.empty, t) else if pc.CUpEmpty? then Up(s.empty) else s.empty)
            && s1.avail == (if pc.CDownAvail? then Down(s.avail, t) else if pc.PUpAvail? then Up(s.avail) else s.avail)
            && |s1.pcs| == |s.pcs| && s1.pcs[t] == NextPc(s, t)
  {
    StepPcs(s, t);
    if UpWakes(Raised(s, s.pcs[t])) { WokenIsBlocked(s, t, Raised(s, s.pcs[t]).queue[0]); }
    hide Queues, Tokens, Down, Up, Ring;
  }

  /** Only `t` and the thread it wakes move. */
  lemma StepPcs(s: State, t: Tid)
    requires Inv(s) && t < |s.pcs|
    ensures |Step(s, t).pcs| == |s.pcs|
    ensures forall i :: 0 <= i < |s.pcs| && i != t && !Wakes(s, t, i) ==> Step(s, t).pcs[i] == s.pcs[i]
    ensures forall i :: 0 <= i < |s.pcs| && Wakes(s, t, i) ==> Step(s, t).pcs[i] == After(s.pcs[i])
  {
    hide Tokens, Balanced;
    if UpWakes(Raised(s, s.pcs[t])) {
      WokenIsBlocked(s, t, Raised(s, s.pcs[t]).queue[0]);
    }
  }

  /** A queue after one step: `t` joins it, its first member leaves it, or nothing. */
  lemma StepQueues(s: State, t: Tid)
    requires Inv(s) && t < |s.pcs|
    ensures Queues(Step(s, t))
  {
    StepPcs(s, t);
    StepMutexQueue(s, t);
    StepEmptyQueue(s, t);
    StepAvailQueue(s, t);
    hide *;
  }

  /** A semaphore's queue after `down`, `up` or neither. */
  lemma QueueAfter(q: Semaphore, t: Tid)
    requires Balanced(q) && Distinct(q.queue)
    ensures Balanced(Down(q, t)) && Balanced(Up(q))
    ensures t !in q.queue ==> Distinct(Down(q, t).queue)
    ensures forall x :: x in Down(q, t).queue <==> x in q.queue || (x == t && DownBlocks(q))
    ensures Distinct(Up(q).queue) && forall x :: x in Up(q).queue <==> x in q.queue && !(UpWakes(q) && x == q.queue[0])
  {
    SemaphoreBalance(q, t);
    if t !in q.queue { PushDistinct(q.queue, t); }
    if q.queue != [] { PopDistinct(q.queue); }
  }

  /** Who is blocked where after a step. */
  lemma BlockedAfter(s: State, t: Tid, i: Tid, pc: Pc)
    requires Inv(s) && t < |s.pcs| && IsBlocked(pc)
    ensures Blocked(Step(s, t), i, pc) <==>
              if i == t then NextPc(s, t) == pc else Blocked(s, i, pc) && !Wakes(s, t, i)
  {
    StepParts(s, t);
    StepPcs(s, t);
    if i < |s.pcs| && Wakes(s, t, i) { WokenIsBlocked(s, t, i); }
    hide Step, Queues, Tokens, Ring, UpWakes, DownBlocks;
  }

  lemma StepMutexQueue(s: State, t: Tid)
    requires Inv(s) && t < |s.pcs|
    ensures var s1 := Step(s, t);
            && Balanced(s1.mutex) && Distinct(s1.mutex.queue)
            && forall i :: i in s1.mutex.queue <==> Blocked(s1, i, PBlockMutex) || Blocked(s1, i, CBlockMutex)
  {
    StepParts(s, t);
    assert Balanced(s.mutex) && Distinct(s.mutex.queue);
    QueueAfter(s.mutex, t);
    forall i: nat
      ensures Blocked(Step(s, t), i, PBlockMutex) <==>
              if i == t then NextPc(s, t) == PBlockMutex else Blocked(s, i, PBlockMutex) && !Wakes(s, t, i)
      ensures Blocked(Step(s, t), i, CBlockMutex) <==>
              if i == t then NextPc(s, t) == CBlockMutex else Blocked(s, i, CBlockMutex) && !Wakes(s, t, i)
      ensures i < |s.pcs| && Wakes(s, t, i) ==>
                (s.pcs[t].PUpMutex? || s.pcs[t].CUpMutex? <==> s.pcs[i].PBlockMutex? || s.pcs[i].CBlockMutex?)
    {
      BlockedAfter(s, t, i, PBlockMutex);
      BlockedAfter(s, t, i, CBlockMutex);
      if i < |s.pcs| && Wakes(s, t, i) { WokenIsBlocked(s, t, i); }
    }
    hide Tokens, Ring, Step, UpWakes, DownBlocks, Up, Down, Balanced, Distinct;
  }

  lemma StepEmptyQueue(s: State, t: Tid)
    requires Inv(s) && t < |s.pcs|
    ensures var s1 := Step(s, t);
            Balanced(s1.empty) && Distinct(s1.empty.queue) && forall i :: i in s1.empty.queue <==>
                Blocked(s1, i, PBlockEmpty)
  {
    StepParts(s, t);
    assert Balanced(s.empty) && Distinct(s.empty.queue);
    QueueAfter(s.empty, t);
    forall i: nat
      ensures Blocked(Step(s, t), i, PBlockEmpty) <==>
              if i == t then NextPc(s, t) == PBlockEmpty else Blocked(s, i, PBlockEmpty) && !Wakes(s, t, i)
      ensures i < |s.pcs| && Wakes(s, t, i) ==> (s.pcs[t].CUpEmpty? <==> s.pcs[i].PBlockEmpty?)
    {
      BlockedAfter(s, t, i, PBlockEmpty);
      if i < |s.pcs| && Wakes(s, t, i) { WokenIsBlocked(s, t, i); }
    }
    hide Tokens, Ring, Step, UpWakes, DownBlocks, Up, Down, Balanced, Distinct;
  }

  lemma StepAvailQueue(s: State, t: Tid)
    requires Inv(s) && t < |s.pcs|
    ensures var s1 := Step(s, t);
            Balanced(s1.avail) && Distinct(s1.avail.queue) && forall i :: i in s1.avail.queue <==>
                Blocked(s1, i, CBlockAvail)
  {
    StepParts(s, t);
    assert Balanced(s.avail) && Distinct(s.avail.queue);
    QueueAfter(s.avail, t);
    forall i: nat
      ensures Blocked(Step(s, t), i, CBlockAvail) <==>
              if i == t then NextPc(s, t) == CBlockAvail else Blocked(s, i, CBlockAvail) && !Wakes(s, t, i)
      ensures i < |s.pcs| && Wakes(s, t, i) ==> (s.pcs[t].PUpAvail? <==> s.pcs[i].CBlockAvail?)
    {
      BlockedAfter(s, t, i, CBlockAvail);
      if i < |s.pcs| && Wakes(s, t, i) { WokenIsBlocked(s, t, i); }
    }
    hide Tokens, Ring, Step, UpWakes, DownBlocks, Up, Down, Balanced, Distinct;
  }

  // ----- permits -----

  /** How a step changes the number of threads in a role. */
  lemma StepSum(s: State, t: Tid, r: Role)
    requires Inv(s) && t < |s.pcs|
    ensures var s1 := Step(s, t);
            && |s1.pcs| == |s.pcs|
            && (!UpWakes(Raised(s, s.pcs[t])) ==>
                Sum(r, s1.pcs) + Weight(r, s.pcs[t]) == Sum(r, s.pcs) + Weight(r, s1.pcs[t]))
            && (UpWakes(Raised(s, s.pcs[t])) ==>
                 var w := Raised(s, s.pcs[t]).queue[0];
                 w < |s.pcs| &&
                 Sum(r, s1.pcs) + Weight(r, s.pcs[t]) + Weight(r, s.pcs[w]) ==
                 Sum(r, s.pcs) + Weight(r, s1.pcs[t]) + Weight(r, After(s.pcs[w])))
  {
    hide Weight, Sum, Tokens, Balanced;
    StepPcs(s, t);
    var s1 := Step(s, t);
    var moved := s.pcs[t := s1.pcs[t]];
    SumUpdate(r, s.pcs, t, s1.pcs[t]);
    if UpWakes(Raised(s, s.pcs[t])) {
      var w := Raised(s, s.pcs[t]).queue[0];
      WokenIsBlocked(s, t, w);
      SumUpdate(r, moved, w, After(s.pcs[w]));
      assert s1.pcs == moved[w := After(s.pcs[w])];
    } else {
      assert s1.pcs == moved;
    }
  }

  /** Items leave by `CAdvance` and arrive by `PAdvance`. */
  lemma StepRemoved(s: State, t: Tid)
    requires Inv(s) && t < |s.pcs|
    ensures Removed(Step(s, t)) == Removed(s) + if s.pcs[t].CAdvance? then 1 else 0
    ensures |Step(s, t).inserted| == |s.inserted| + if s.pcs[t].PAdvance? then 1 else 0
  {
    hide Tokens, Queues, Sum, Down, Up, Balanced;
    StepSum(s, t, ReadNotAdvanced);
    if UpWakes(Raised(s, s.pcs[t])) { WokenIsBlocked(s, t, Raised(s, s.pcs[t]).queue[0]); }
  }

  lemma CountsMove(s: State, t: Tid)
    requires Queues(s)
    ensures Max0(Down(s.mutex, t).count) == Max0(s.mutex.count) - if DownBlocks(s.mutex) then 0 else 1
    ensures Max0(Up(s.mutex).count) == Max0(s.mutex.count) + if UpWakes(s.mutex) then 0 else 1
    ensures Max0(Down(s.empty, t).count) == Max0(s.empty.count) - if DownBlocks(s.empty) then 0 else 1
    ensures Max0(Up(s.empty).count) == Max0(s.empty.count) + if UpWakes(s.empty) then 0 else 1
    ensures Max0(Down(s.avail, t).count) == Max0(s.avail.count) - if DownBlocks(s.avail) then 0 else 1
    ensures Max0(Up(s.avail).count) == Max0(s.avail.count) + if UpWakes(s.avail) then 0 else 1
  {
    SemaphoreBalance(s.mutex, t);
    SemaphoreBalance(s.empty, t);
    SemaphoreBalance(s.avail, t);
    hide *;
  }

  /** Who is woken by whom. */
  lemma WokenPc(s: State, t: Tid)
    requires Queues(s) && t < |s.pcs| && UpWakes(Raised(s, s.pcs[t]))
    ensures Raised(s, s.pcs[t]).queue != [] && Raised(s, s.pcs[t]).queue[0] < |s.pcs|
    ensures var w := s.pcs[Raised(s, s.pcs[t]).queue[0]];
            && (s.pcs[t].PUpMutex? || s.pcs[t].CUpMutex? ==> w.PBlockMutex? || w.CBlockMutex?)
            && (s.pcs[t].PUpAvail? ==> w.CBlockAvail?) && (s.pcs[t].CUpEmpty? ==> w.PBlockEmpty?)
            && (s.pcs[t].PUpMutex? || s.pcs[t].CUpMutex? || s.pcs[t].PUpAvail? || s.pcs[t].CUpEmpty?)
  {
    WokenIsBlocked(s, t, Raised(s, s.pcs[t]).queue[0]);
    hide Queues;
  }

  lemma StepMutexToken(s: State, t: Tid)
    requires Inv(s) && t < |s.pcs|
    ensures Max0(Step(s, t).mutex.count) + Sum(InMutex, Step(s, t).pcs) == 1
  {
    hide Queues, Sum, Ring, Max0, Balanced, Removed, Step, Down, Up, UpWakes, DownBlocks;
    StepSum(s, t, InMutex);
    StepParts(s, t);
    CountsMove(s, t);
    if UpWakes(Raised(s, s.pcs[t])) { WokenPc(s, t); }
  }

  lemma StepEmptyToken(s: State, t: Tid)
    requires Inv(s) && t < |s.pcs|
    ensures var s1 := Step(s, t);
            Max0(s1.empty.count) + Sum(HasEmpty, s1.pcs) + (|s1.inserted| - Removed(s1)) + Sum(OwesEmpty,
                s1.pcs) == BUFFER_SIZE
  {
    hide Queues, Sum, Ring, Max0, Balanced, Removed, Step, Down, Up, UpWakes, DownBlocks;
    StepSum(s, t, HasEmpty);
    StepSum(s, t, OwesEmpty);
    StepRemoved(s, t);
    StepParts(s, t);
    CountsMove(s, t);
    if UpWakes(Raised(s, s.pcs[t])) { WokenPc(s, t); }
  }

  lemma StepAvailToken(s: State, t: Tid)
    requires Inv(s) && t < |s.pcs|
    ensures var s1 := Step(s, t);
            Max0(s1.avail.count) + Sum(OwesAvail, s1.pcs) + Sum(HasAvail, s1.pcs) == |s1.inserted| - Removed(s1)
  {
    hide Queues, Sum, Ring, Max0, Balanced, Removed, Step, Down, Up, UpWakes, DownBlocks;
    StepSum(s, t, OwesAvail);
    StepSum(s, t, HasAvail);
    StepRemoved(s, t);
    StepParts(s, t);
    CountsMove(s, t);
    if UpWakes(Raised(s, s.pcs[t])) { WokenPc(s, t); }
  }

  // ----- the ring -----

  /** At most one thread is between `down` and `up` of the mutex. */
  lemma MutexExclusive(s: State, i: Tid, j: Tid)
    requires Tokens(s) && i < |s.pcs| && j < |s.pcs| && i != j
    ensures Weight(InMutex, s.pcs[i]) + Weight(InMutex, s.pcs[j]) <= 1
  {
    if i < j { SumPair(InMutex, s.pcs, i, j); } else { SumPair(InMutex, s.pcs, j, i); }
  }

  lemma {:induction false} ReadersInMutex(pcs: seq<Pc>)
    ensures Sum(ReadNotAdvanced, pcs) <= Sum(InMutex, pcs)
  {
    if pcs != [] { ReadersInMutex(pcs[1..]); }
  }

  /** A thread about to read is the only one in the mutex, so every read so far is complete. */
  lemma NoPendingRead(s: State, t: Tid)
    requires Tokens(s) && t < |s.pcs| && s.pcs[t].CRead?
    ensures Sum(ReadNotAdvanced, s.pcs) == 0
  {
    hide Sum;
    SumUpdate(InMutex, s.pcs, t, PDownEmpty);
    SumUpdate(ReadNotAdvanced, s.pcs, t, PDownEmpty);
    ReadersInMutex(s.pcs[t := PDownEmpty]);
  }

  /** The slot a producer is about to write is free: fewer than BUFFER_SIZE items are in the ring. */
  lemma SlotFree(s: State, t: Tid)
    requires Tokens(s) && t < |s.pcs| && (s.pcs[t].PWrite? || s.pcs[t].PAdvance?)
    ensures |s.inserted| - Removed(s) < BUFFER_SIZE
  {
    hide Sum;
    SumAtLeast(HasEmpty, s.pcs, t);
  }

  /** There is an item for a consumer that is about to read, and it has not been read. */
  lemma ItemThere(s: State, t: Tid)
    requires Tokens(s) && t < |s.pcs| && (s.pcs[t].CRead? || s.pcs[t].CAdvance?)
    ensures |s.inserted| - Removed(s) > 0
  {
    hide Sum;
    SumAtLeast(HasAvail, s.pcs, t);
  }

  lemma SlotsDiffer(k: nat, n: nat)
    requires n - BUFFER_SIZE < k < n
    ensures k % BUFFER_SIZE != n % BUFFER_SIZE
  {
  }

  lemma WriteRing(s: State, t: Tid)
    requires Inv(s) && t < |s.pcs| && s.pcs[t].PWrite?
    ensures Ring(Step(s, t))
  {
    StepRemoved(s, t);
    SlotFree(s, t);
    var s1 := Step(s, t);
    forall k | Removed(s) <= k < |s.inserted|
        ensures s1.buffer[k % BUFFER_SIZE] == s.inserted[k] { SlotsDiffer(k, |s.inserted|); }
    forall i | 0 <= i < |s1.pcs| && s1.pcs[i].PAdvance? ensures i == t {
      if i != t { MutexExclusive(s, i, t); }
    }
    hide Tokens, Queues, Sum, Removed;
  }

  lemma AdvanceRing(s: State, t: Tid)
    requires Inv(s) && t < |s.pcs| && s.pcs[t].PAdvance?
    ensures Ring(Step(s, t))
  {
    hide Queues, Sum, Removed;
    StepRemoved(s, t);
    var s1 := Step(s, t);
    forall i | 0 <= i < |s1.pcs| ensures !s1.pcs[i].PAdvance? {
      if i != t { MutexExclusive(s, i, t); }
    }
    NextFront(|s.inserted|);
    hide Tokens;
  }

  lemma ReadRing(s: State, t: Tid)
    requires Inv(s) && t < |s.pcs| && s.pcs[t].CRead?
    ensures Ring(Step(s, t))
  {
    StepRemoved(s, t);
    NoPendingRead(s, t);
    ItemThere(s, t);
    assert Removed(s) == |s.seen|;
    assert s.buffer[s.front] == s.inserted[|s.seen|];
    hide Tokens, Queues, Sum, Removed;
  }

  lemma TakeRing(s: State, t: Tid)
    requires Inv(s) && t < |s.pcs| && s.pcs[t].CAdvance?
    ensures Ring(Step(s, t))
  {
    hide Tokens, Queues, Sum;
    StepRemoved(s, t);
    SumAtLeast(ReadNotAdvanced, s.pcs, t);
    assert Removed(s) + 1 <= |s.seen|;
    hide Removed;
    NextFront(Removed(s));
  }

  lemma NextFront(n: nat)
    ensures (n % BUFFER_SIZE + 1) % BUFFER_SIZE == (n + 1) % BUFFER_SIZE
  {
  }

  lemma OtherRing(s: State, t: Tid)
    requires Inv(s) && t < |s.pcs| && !s.pcs[t].PWrite? && !s.pcs[t].PAdvance? && !s.pcs[t].CRead?
    requires !s.pcs[t].CAdvance?
    ensures Ring(Step(s, t))
  {
    hide Tokens, Queues, Sum, Removed, Balanced, Down, Up, Step;
    RingShape(s);
    StepRemoved(s, t);
    SemaphoreOnly(s, t);
    NobodyAdvances(s, t);
  }

  /** Semaphore calls leave the buffer and the history alone. */
  lemma SemaphoreOnly(s: State, t: Tid)
    requires Ring(s) && s.front < BUFFER_SIZE && s.tail < BUFFER_SIZE && t < |s.pcs|
    requires !s.pcs[t].PWrite? && !s.pcs[t].PAdvance? && !s.pcs[t].CRead? && !s.pcs[t].CAdvance?
    ensures var s1 := Step(s, t);
            s1.buffer == s.buffer && s1.front == s.front && s1.tail == s.tail && s1.inserted == s.inserted
                && s1.seen == s.seen
  {
    hide Ring, Down, Up;
  }

  /** No step but `PWrite` leads to `PAdvance`. */
  lemma NobodyAdvances(s: State, t: Tid)
    requires Inv(s) && t < |s.pcs| && !s.pcs[t].PWrite?
    ensures |Step(s, t).pcs| == |s.pcs|
    ensures forall i :: 0 <= i < |s.pcs| && Step(s, t).pcs[i].PAdvance? ==> s.pcs[i].PAdvance?
  {
    hide Tokens, Ring, Step;
    StepPcs(s, t);
    StepParts(s, t);
    forall i | 0 <= i < |s.pcs| && Wakes(s, t, i) ensures IsBlocked(s.pcs[i]) { WokenIsBlocked(s, t, i); }
    hide Queues, UpWakes, DownBlocks;
  }

  /** Every step keeps the invariant. */
  lemma StepInv(s: State, t: Tid)
    requires Inv(s) && t < |s.pcs|
    ensures Inv(Step(s, t))
  {
    StepQueues(s, t);
    StepMutexToken(s, t);
    StepEmptyToken(s, t);
    StepAvailToken(s, t);
    if s.pcs[t].PWrite? { WriteRing(s, t); }
    else if s.pcs[t].PAdvance? { AdvanceRing(s, t); }
    else if s.pcs[t].CRead? { ReadRing(s, t); }
    else if s.pcs[t].CAdvance? { TakeRing(s, t); }
    else { OtherRing(s, t); }
    hide Step, Queues, Ring, Sum, Removed;
  }

  // ----- runs -----

  /** Threads at the start of their loops, semaphores as `main` creates them. */
  predicate Initial(s: State) {
    && s.mutex == Semaphore(1, []) && s.empty == Semaphore(BUFFER_SIZE, []) && s.avail == Semaphore(0, [])
    && |s.buffer| == BUFFER_SIZE && s.front == 0 && s.tail == 0 && s.inserted == [] && s.seen == []
    && forall t :: 0 <= t < |s.pcs| ==> s.pcs[t].PDownEmpty? || s.pcs[t].CDownAvail?
  }

  lemma {:induction false} NoneInRole(r: Role, pcs: seq<Pc>)
    requires forall t :: 0 <= t < |pcs| ==> pcs[t].PDownEmpty? || pcs[t].CDownAvail?
    ensures Sum(r, pcs) == 0
  {
    if pcs != [] { NoneInRole(r, pcs[1..]); }
  }

  lemma InitialInv(s: State)
    requires Initial(s)
    ensures Inv(s)
  {
    forall r ensures Sum(r, s.pcs) == 0 { NoneInRole(r, s.pcs); }
  }

  ghost function Run(s: State, schedule: seq<Tid>): State
    requires Inv(s) && forall k :: 0 <= k < |schedule| ==> schedule[k] < |s.pcs|
    decreases |schedule|
  {
    if schedule == [] then s
    else
      StepInv(s, schedule[0]);
      StepPcs(s, schedule[0]);
      Run(Step(s, schedule[0]), schedule[1..])
  }

  lemma RingShape(s: State)
    requires Ring(s)
    ensures |s.buffer| == BUFFER_SIZE && s.front < BUFFER_SIZE && s.tail < BUFFER_SIZE
  {
  }

  lemma {:induction false} RunInv(s: State, schedule: seq<Tid>)
    requires Inv(s) && forall k :: 0 <= k < |schedule| ==> schedule[k] < |s.pcs|
    ensures Inv(Run(s, schedule)) && |Run(s, schedule).pcs| == |s.pcs|
    decreases |schedule|
  {
    hide Queues, Tokens, Ring, Step;
    if schedule != [] {
      assert |s.buffer| == BUFFER_SIZE && s.front < BUFFER_SIZE && s.tail < BUFFER_SIZE by { RingShape(s); }
      StepInv(s, schedule[0]);
      StepPcs(s, schedule[0]);
      RunInv(Step(s, schedule[0]), schedule[1..]);
    }
  }

  /** For every schedule: consumers see exactly what producers put in, in order, occupancy is at most BUFFER_SIZE, queue
      lengths match counts, and no slot about to be written holds an unread item. */
  lemma Safety(s: State, schedule: seq<Tid>)
    requires Initial(s) && forall k :: 0 <= k < |schedule| ==> schedule[k] < |s.pcs|
    ensures Inv(s)
    ensures var r := Run(s, schedule);
            && Inv(r) && r.seen == r.inserted[..|r.seen|] && 0 <= |r.inserted| - Removed(r) <= BUFFER_SIZE
            && Balanced(r.mutex) && Balanced(r.empty) && Balanced(r.avail)
            && forall t :: 0 <= t < |r.pcs| && r.pcs[t].PWrite? ==>
                 forall k :: Removed(r) <= k < |r.inserted| ==> k % BUFFER_SIZE != r.tail
  {
    InitialInv(s);
    RunInv(s, schedule);
    var r := Run(s, schedule);
    forall t | 0 <= t < |r.pcs| && r.pcs[t].PWrite?
      ensures forall k :: Removed(r) <= k < |r.inserted| ==> k % BUFFER_SIZE != r.tail
    {
      SlotFree(r, t);
      forall k | Removed(r) <= k < |r.inserted| ensures k % BUFFER_SIZE != r.tail { SlotsDiffer(k, |r.inserted|); }
    }
  }

  // ----- no deadlock -----

  predicate IsProducer(pc: Pc) {
    || pc.PDownEmpty? || pc.PBlockEmpty? || pc.PDownMutex? || pc.PBlockMutex?
    || pc.PWrite? || pc.PAdvance? || pc.PUpMutex? || pc.PUpAvail?
  }

  /** A thread keeps its role. */
  lemma StepRoles(s: State, t: Tid, i: Tid)
    requires Inv(s) && t < |s.pcs| && i < |s.pcs|
    ensures |Step(s, t).pcs| == |s.pcs| && IsProducer(Step(s, t).pcs[i]) == IsProducer(s.pcs[i])
  {
    hide Queues, Tokens, Ring, Step, UpWakes, DownBlocks;
    StepPcs(s, t);
    StepParts(s, t);
  }

  lemma {:induction false} RunRoles(s: State, schedule: seq<Tid>, i: Tid)
    requires Inv(s) && (forall k :: 0 <= k < |schedule| ==> schedule[k] < |s.pcs|) && i < |s.pcs|
    ensures |Run(s, schedule).pcs| == |s.pcs| && IsProducer(Run(s, schedule).pcs[i]) == IsProducer(s.pcs[i])
    decreases |schedule|
  {
    hide Queues, Tokens, Ring, Step, IsProducer;
    if schedule != [] {
      RingShape(s);
      StepInv(s, schedule[0]);
      StepRoles(s, schedule[0], i);
      RunRoles(Step(s, schedule[0]), schedule[1..], i);
    }
  }

  lemma {:induction false} BlockedHoldNothing(r: Role, pcs: seq<Pc>)
    requires forall i :: 0 <= i < |pcs| ==> pcs[i].PBlockEmpty? || pcs[i].CBlockAvail?
    ensures Sum(r, pcs) == 0
  {
    if pcs != [] { BlockedHoldNothing(r, pcs[1..]); }
  }

  lemma {:induction false} NobodyInMutex(pcs: seq<Pc>)
    requires forall i :: 0 <= i < |pcs| ==> IsBlocked(pcs[i])
    ensures Sum(InMutex, pcs) == 0
  {
    if pcs != [] { NobodyInMutex(pcs[1..]); }
  }

  /** With a producer `p` and a consumer `c` about, not all threads are blocked. */
  lemma SomeoneRuns(s: State, p: Tid, c: Tid)
    requires Inv(s) && p < |s.pcs| && c < |s.pcs| && IsProducer(s.pcs[p]) && !IsProducer(s.pcs[c])
    ensures exists i :: 0 <= i < |s.pcs| && !IsBlocked(s.pcs[i])
  {
    hide Ring;
    if forall i :: 0 <= i < |s.pcs| ==> IsBlocked(s.pcs[i]) {
      NobodyInMutex(s.pcs);
      assert s.mutex.queue == [];
      forall i | 0 <= i < |s.pcs| ensures s.pcs[i].PBlockEmpty? || s.pcs[i].CBlockAvail? {
        assert i !in s.mutex.queue;
        assert !Blocked(s, i, PBlockMutex) && !Blocked(s, i, CBlockMutex);
      }
      hide Queues, Tokens, Sum;
      FullOrEmpty(s, p, c);
    }
  }

  /** If everybody waits for a slot or an item, a waiting producer means a full buffer and a waiting consumer an
      empty one. */
  lemma FullOrEmpty(s: State, p: Tid, c: Tid)
    requires Queues(s) && Tokens(s) && p < |s.pcs| && c < |s.pcs|
    requires forall i :: 0 <= i < |s.pcs| ==> s.pcs[i].PBlockEmpty? || s.pcs[i].CBlockAvail?
    ensures s.pcs[p].PBlockEmpty? ==> |s.inserted| - Removed(s) == BUFFER_SIZE
    ensures s.pcs[c].CBlockAvail? ==> |s.inserted| - Removed(s) == 0
  {
    hide Sum;
    forall r ensures Sum(r, s.pcs) == 0 { BlockedHoldNothing(r, s.pcs); }
    assert s.pcs[p].PBlockEmpty? ==> Blocked(s, p, PBlockEmpty) && p in s.empty.queue;
    assert s.pcs[c].CBlockAvail? ==> Blocked(s, c, CBlockAvail) && c in s.avail.queue;
  }

  /** No deadlock: after any schedule, with a producer and a consumer among the threads, some thread can take a step. */
  lemma NoDeadlock(s: State, schedule: seq<Tid>, p: Tid, c: Tid)
    requires Initial(s) && (forall k :: 0 <= k < |schedule| ==> schedule[k] < |s.pcs|)
    requires p < |s.pcs| && c < |s.pcs| && s.pcs[p].PDownEmpty? && s.pcs[c].CDownAvail?
    ensures Inv(s) && exists i :: 0 <= i < |s.pcs| && i < |Run(s, schedule).pcs| && !IsBlocked(Run(s, schedule).pcs[i])
  {
    InitialInv(s);
    RunInv(s, schedule);
    RunRoles(s, schedule, p);
    RunRoles(s, schedule, c);
    SomeoneRuns(Run(s, schedule), p, c);
  }
}
