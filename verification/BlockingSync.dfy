/**
 Blocking mutexes and condition variables (os/src/sync/mutex.rs,
 os/src/sync/condvar.rs), any number of each and of threads.  A kernel stretch
 between suspend points is one step; `unlock` hands the mutex to the first
 waiter without ever clearing `locked`.
 */
module BlockingSync {
  import opened Sequences
  import opened Wrappers

  type Tid = nat
  type Mid = nat
  type Cid = nat

  /** What a thread is doing: runnable in user code, blocked on a mutex or a condvar, or woken by `signal` and about to
      call `mutex.lock()` again. */
  datatype Phase = Running | MutexWait(m: Mid) | CondWait(c: Cid, cm: Mid) | Woken(wm: Mid)

  /** `held`: the mutexes it owns, a hand-off counting from the moment of the hand-off.  `waiting`: inside
      `wait_with_mutex`, and with which mutex. */
  datatype Thread = Thread(phase: Phase, held: set<Mid>, waiting: Option<Mid>)

  /** The kernel's two fields, and the history: `lock` calls in order and grants in order. */
  datatype Mutex = Mutex(locked: bool, queue: seq<Tid>, requests: seq<Tid>, grants: seq<Tid>)

  datatype State = State(mutexes: map<Mid, Mutex>, conds: map<Cid, seq<Tid>>, threads: map<Tid, Thread>)

  datatype Op = Lock(t: Tid, m: Mid) | Unlock(t: Tid, m: Mid) | Wait(t: Tid, c: Cid, m: Mid) | Signal(t: Tid,
      c: Cid) | Relock(t: Tid)

  // ----- the kernel stretches -----

  /** `lock`. */
  function DoLock(s: State, t: Tid, m: Mid): State
    requires t in s.threads && m in s.mutexes
  {
    var mu, th := s.mutexes[m], s.threads[t];
    if mu.locked then
      s.(mutexes := s.mutexes[m := mu.(queue := mu.queue + [t], requests := mu.requests + [t])],
         threads := s.threads[t := th.(phase := MutexWait(m))])
    else
      s.(mutexes := s.mutexes[m := mu.(locked := true, requests := mu.requests + [t], grants := mu.grants + [t])],
         threads := s.threads[t := Thread(Running, th.held + {m}, None)])
  }

  function Release(s: State, t: Tid, m: Mid): State
    requires t in s.threads
  {
    s.(threads := s.threads[t := s.threads[t].(held := s.threads[t].held - {m})])
  }

  /** `unlock`, once the caller has let go. */
  function HandOff(s: State, m: Mid): State
    requires m in s.mutexes
  {
    var mu := s.mutexes[m];
    if mu.queue == [] then s.(mutexes := s.mutexes[m := mu.(locked := false)])
    else
      var w := mu.queue[0];
      s.(mutexes := s.mutexes[m := mu.(queue := mu.queue[1..], grants := mu.grants + [w])],
         threads := if w in s.threads then s.threads[w := Thread(Running, s.threads[w].held + {m}, None)]
             else s.threads)
  }

  function Park(s: State, t: Tid, c: Cid, m: Mid): State
    requires t in s.threads && c in s.conds
  {
    s.(conds := s.conds[c := s.conds[c] + [t]],
       threads := s.threads[t := s.threads[t].(phase := CondWait(c, m), waiting := Some(m))])
  }

  /** `signal`. */
  function DoSignal(s: State, c: Cid): State
    requires c in s.conds
  {
    if s.conds[c] == [] then s
    else
      var w := s.conds[c][0];
      s.(conds := s.conds[c := s.conds[c][1..]],
         threads := if w in s.threads && s.threads[w].phase.CondWait?
                    then s.threads[w := s.threads[w].(phase := Woken(s.threads[w].phase.cm))] else s.threads)
  }

  /** Threads issue calls while they run, and only the holder unlocks. */
  predicate Enabled(s: State, op: Op) {
    && op.t in s.threads
    && match op
       case Lock(t, m) => s.threads[t].phase == Running && m in s.mutexes
       case Unlock(t, m) => s.threads[t].phase == Running && m in s.threads[t].held && m in s.mutexes
       case Wait(t, c, m) => s.threads[t].phase == Running && m in s.threads[t].held && m in s.mutexes && c in s.conds
       case Signal(t, c) => s.threads[t].phase == Running && c in s.conds
       case Relock(t) => s.threads[t].phase.Woken? && s.threads[t].phase.wm in s.mutexes
  }

  function Step(s: State, op: Op): State
    requires Enabled(s, op)
  {
    match op
    case Lock(t, m) => DoLock(s, t, m)
    case Unlock(t, m) => HandOff(Release(s, t, m), m)
    case Wait(t, c, m) => (var s1 := HandOff(Release(s, t, m), m); if t in s1.threads then Park(s1, t, c, m) else s1)
    case Signal(t, c) => DoSignal(s, c)
    case Relock(t) => DoLock(s, t, s.threads[t].phase.wm)
  }

  // ----- the invariant -----

  predicate Holds(s: State, t: Tid, m: Mid) { t in s.threads && m in s.threads[t].held }

  function Last(q: seq<Tid>): Tid
    requires q != []
  {
    q[|q| - 1]
  }

  /** `locked` holds exactly when there is an owner, who is the thread granted last, and there is never more than
      one. */
  ghost predicate Owned(s: State) {
    && (forall t, m :: Holds(s, t, m) ==> m in s.mutexes && s.mutexes[m].locked)
    && (forall m :: m in s.mutexes && s.mutexes[m].locked ==>
        s.mutexes[m].grants != [] && Holds(s, Last(s.mutexes[m].grants), m))
    && forall t, u, m :: Holds(s, t, m) && Holds(s, u, m) ==> t == u
  }

  /** A thread blocked on a mutex is in that mutex's queue, once, and in no other. */
  ghost predicate MutexQueues(s: State) {
    forall m :: m in s.mutexes ==>
      Distinct(s.mutexes[m].queue) && forall t :: t in s.mutexes[m].queue <==> BlockedOn(s, t, MutexWait(m))
  }

  predicate BlockedOn(s: State, t: Tid, phase: Phase) { t in s.threads && s.threads[t].phase == phase }

  /** Likewise for condvars. */
  ghost predicate CondQueues(s: State) {
    forall c :: c in s.conds ==> Distinct(s.conds[c]) && forall t :: t in s.conds[c] <==> Parked(s, t, c)
  }

  predicate Parked(s: State, t: Tid, c: Cid) {
    t in s.threads && s.threads[t].phase.CondWait? && s.threads[t].phase.c == c
  }

  ghost predicate Queued(s: State) { MutexQueues(s) && CondQueues(s) }

  /** Grants follow requests: those granted, in order, then those still waiting, in order. */
  ghost predicate Fifo(s: State) {
    forall m :: m in s.mutexes ==>
      s.mutexes[m].requests == s.mutexes[m].grants + s.mutexes[m].queue && (!s.mutexes[m].locked ==>
          s.mutexes[m].queue == [])
  }

  /** A running thread is not inside `wait_with_mutex`; one that is inside is on its way back to the mutex it gave. */
  ghost predicate Calls(s: State) {
    forall t :: t in s.threads ==>
      match s.threads[t].phase
      case Running => s.threads[t].waiting == None
      case MutexWait(m) => m in s.mutexes && (s.threads[t].waiting == None || s.threads[t].waiting == Some(m))
      case CondWait(c, m) => s.threads[t].waiting == Some(m) && c in s.conds && m in s.mutexes
      case Woken(m) => s.threads[t].waiting == Some(m) && m in s.mutexes
  }

  ghost predicate Inv(s: State) { Owned(s) && Queued(s) && Fifo(s) && Calls(s) }

  // ----- each stretch keeps it -----

  lemma LockOwned(s: State, t: Tid, m: Mid)
    requires Inv(s) && t in s.threads && m in s.mutexes
    ensures Owned(DoLock(s, t, m))
  {
    hide Queued, Fifo, Calls;
    var s1 := DoLock(s, t, m);
    assert forall u, k :: Holds(s1, u, k) <==> Holds(s, u, k) || (u == t && k == m && !s.mutexes[m].locked);
  }

  lemma LockQueued(s: State, t: Tid, m: Mid)
    requires Inv(s) && t in s.threads && m in s.mutexes && s.threads[t].phase in {Running, Woken(m)}
    ensures Queued(DoLock(s, t, m)) && Fifo(DoLock(s, t, m)) && Calls(DoLock(s, t, m))
  {
    LockMutexQueues(s, t, m);
    LockCondQueues(s, t, m);
    LockFifo(s, t, m);
    hide *;
  }

  lemma LockMutexQueues(s: State, t: Tid, m: Mid)
    requires Inv(s) && t in s.threads && m in s.mutexes && s.threads[t].phase in {Running, Woken(m)}
    ensures MutexQueues(DoLock(s, t, m))
  {
    hide Owned, CondQueues, Fifo, Calls;
    var s1 := DoLock(s, t, m);
    assert forall u, k :: BlockedOn(s1, u, MutexWait(k)) <==>
        BlockedOn(s, u, MutexWait(k)) || (u == t && k == m && s.mutexes[m].locked);
    assert !BlockedOn(s, t, MutexWait(m));
    assert t !in s.mutexes[m].queue;
  }

  lemma LockCondQueues(s: State, t: Tid, m: Mid)
    requires Inv(s) && t in s.threads && m in s.mutexes && s.threads[t].phase in {Running, Woken(m)}
    ensures CondQueues(DoLock(s, t, m))
  {
    hide Owned, MutexQueues, Fifo, Calls;
    assert forall u, c :: Parked(DoLock(s, t, m), u, c) <==> Parked(s, u, c);
  }

  lemma LockFifo(s: State, t: Tid, m: Mid)
    requires Inv(s) && t in s.threads && m in s.mutexes && s.threads[t].phase in {Running, Woken(m)}
    ensures Fifo(DoLock(s, t, m)) && Calls(DoLock(s, t, m))
  {
    hide Owned, Queued;
  }

  /** Letting go and handing over: the mutex passes from `t` to the first waiter, or becomes free. */
  lemma HandOffOwned(s: State, t: Tid, m: Mid)
    requires Inv(s) && Holds(s, t, m)
    ensures m in s.mutexes && Owned(HandOff(Release(s, t, m), m))
  {
    hide Fifo, Calls;
    var s0 := Release(s, t, m);
    var s1 := HandOff(s0, m);
    var q := s.mutexes[m].queue;
    assert forall u, k :: Holds(s0, u, k) <==> Holds(s, u, k) && !(u == t && k == m);
    assert q != [] ==> q[0] in q && q[0] in s.threads;
    assert forall u, k :: Holds(s1, u, k) <==> Holds(s0, u, k) || (q != [] && u == q[0] && k == m);
  }

  lemma HandOffQueued(s: State, t: Tid, m: Mid)
    requires Inv(s) && Holds(s, t, m) && s.threads[t].phase == Running && m in s.mutexes
    ensures var s1 := HandOff(Release(s, t, m), m);
            Queued(s1) && Fifo(s1) && Calls(s1) && t in s1.threads && s1.threads[t].phase == Running
                && s1.conds == s.conds
  {
    HandOffQueues(s, t, m);
    HandOffFifo(s, t, m);
    hide *;
  }

  lemma HandOffQueues(s: State, t: Tid, m: Mid)
    requires Inv(s) && Holds(s, t, m) && s.threads[t].phase == Running && m in s.mutexes
    ensures Queued(HandOff(Release(s, t, m), m))
  {
    hide Owned, Fifo, Calls;
    var s1 := HandOff(Release(s, t, m), m);
    var q := s.mutexes[m].queue;
    assert q != [] ==> q[0] in q && BlockedOn(s, q[0], MutexWait(m));
    assert forall u, c :: Parked(s1, u, c) <==> Parked(s, u, c);
    HandOffWaiters(s, t, m);
    if q != [] { PopDistinct(q); }
  }

  lemma HandOffWaiters(s: State, t: Tid, m: Mid)
    requires Inv(s) && Holds(s, t, m) && s.threads[t].phase == Running && m in s.mutexes
    ensures forall u, k :: BlockedOn(HandOff(Release(s, t, m), m), u, MutexWait(k)) <==>
              BlockedOn(s, u, MutexWait(k)) && !(s.mutexes[m].queue != [] && u == s.mutexes[m].queue[0])
  {
    hide Owned, Fifo, Calls, CondQueues;
    var q := s.mutexes[m].queue;
    assert q != [] ==> q[0] in q && BlockedOn(s, q[0], MutexWait(m));
  }

  lemma HandOffFifo(s: State, t: Tid, m: Mid)
    requires Inv(s) && Holds(s, t, m) && s.threads[t].phase == Running && m in s.mutexes
    ensures var s1 := HandOff(Release(s, t, m), m);
            Fifo(s1) && Calls(s1) && t in s1.threads && s1.threads[t].phase == Running && s1.conds == s.conds
  {
    hide Owned, CondQueues;
    var q := s.mutexes[m].queue;
    if q != [] { assert q[0] in q; }
  }

  lemma ParkKeeps(s: State, t: Tid, c: Cid, m: Mid)
    requires Inv(s) && t in s.threads && s.threads[t].phase == Running && c in s.conds && m in s.mutexes
    ensures Inv(Park(s, t, c, m))
  {
    var s1 := Park(s, t, c, m);
    assert forall u, k :: Holds(s1, u, k) <==> Holds(s, u, k);
    ParkQueued(s, t, c, m);
    hide Queued, Fifo, Calls;
  }

  lemma ParkQueued(s: State, t: Tid, c: Cid, m: Mid)
    requires Inv(s) && t in s.threads && s.threads[t].phase == Running && c in s.conds && m in s.mutexes
    ensures Queued(Park(s, t, c, m)) && Fifo(Park(s, t, c, m)) && Calls(Park(s, t, c, m))
  {
    hide Owned;
    var s1 := Park(s, t, c, m);
    assert forall u, k :: BlockedOn(s1, u, MutexWait(k)) <==> BlockedOn(s, u, MutexWait(k));
    assert forall u, k :: Parked(s1, u, k) <==> Parked(s, u, k) || (u == t && k == c);
    assert !Parked(s, t, c);
  }

  lemma SignalKeeps(s: State, c: Cid)
    requires Inv(s) && c in s.conds
    ensures Inv(DoSignal(s, c))
  {
    var s1 := DoSignal(s, c);
    assert forall u, k :: Holds(s1, u, k) <==> Holds(s, u, k);
    SignalQueued(s, c);
    hide Queued, Fifo, Calls;
  }

  lemma SignalQueued(s: State, c: Cid)
    requires Inv(s) && c in s.conds
    ensures Queued(DoSignal(s, c)) && Fifo(DoSignal(s, c)) && Calls(DoSignal(s, c))
  {
    hide Owned;
    var q := s.conds[c];
    if q != [] {
      assert q[0] in q;
      PopDistinct(q);
    }
  }

  /** Every step keeps the invariant. */
  lemma StepInv(s: State, op: Op)
    requires Inv(s) && Enabled(s, op)
    ensures Inv(Step(s, op))
  {
    hide Owned, Queued, Fifo, Calls;
    match op {
      case Lock(t, m) => LockOwned(s, t, m); LockQueued(s, t, m);
      case Relock(t) => LockOwned(s, t, s.threads[t].phase.wm); LockQueued(s, t, s.threads[t].phase.wm);
      case Unlock(t, m) => HandOffOwned(s, t, m); HandOffQueued(s, t, m);
      case Wait(t, c, m) =>
        HandOffOwned(s, t, m);
        HandOffQueued(s, t, m);
        ParkKeeps(HandOff(Release(s, t, m), m), t, c, m);
      case Signal(t, c) => SignalKeeps(s, c);
    }
  }

  // ----- runs -----

  predicate Legal(s: State, ops: seq<Op>)
    decreases |ops|
  {
    ops == [] || (Enabled(s, ops[0]) && Legal(Step(s, ops[0]), ops[1..]))
  }

  function Run(s: State, ops: seq<Op>): State
    requires Legal(s, ops)
    decreases |ops|
  {
    if ops == [] then s else Run(Step(s, ops[0]), ops[1..])
  }

  /** Threads running, mutexes free, queues empty. */
  predicate Initial(s: State) {
    && (forall t :: t in s.threads ==> s.threads[t] == Thread(Running, {}, None))
    && (forall m :: m in s.mutexes ==> s.mutexes[m] == Mutex(false, [], [], []))
    && forall c :: c in s.conds ==> s.conds[c] == []
  }

  lemma {:induction false} RunInv(s: State, ops: seq<Op>)
    requires Inv(s) && Legal(s, ops)
    ensures Inv(Run(s, ops))
    decreases |ops|
  {
    hide Inv, Step, Enabled;
    if ops != [] {
      StepInv(s, ops[0]);
      RunInv(Step(s, ops[0]), ops[1..]);
    }
  }

  /** In every reachable state `locked` means exactly one owner, a blocked thread is in exactly one queue, and grants
      are a prefix of the requests in order, the queue being the rest. */
  lemma Safety(s: State, ops: seq<Op>)
    requires Initial(s) && Legal(s, ops)
    ensures Inv(Run(s, ops))
  {
    hide Legal, Run;
    assert Owned(s) && Queued(s) && Fifo(s) && Calls(s);
    RunInv(s, ops);
  }

  /** The assertion in `unlock` never fails when only holders unlock. */
  lemma UnlockAsserts(s: State, op: Op)
    requires Inv(s) && Enabled(s, op) && (op.Unlock? || op.Wait?)
    ensures s.mutexes[op.m].locked
  {
    hide Queued, Fifo, Calls;
    assert Holds(s, op.t, op.m);
  }

  /** `t` owns `m`, alone. */
  ghost predicate OwnsAlone(s: State, t: Tid, m: Mid) {
    Holds(s, t, m) && m in s.mutexes && s.mutexes[m].locked && forall u :: Holds(s, u, m) ==> u == t
  }

  /** `t` is inside `wait_with_mutex`, called with `m`. */
  predicate WaitsWith(s: State, t: Tid, m: Mid) { t in s.threads && s.threads[t].waiting == Some(m) }

  /** One step: a thread inside `wait_with_mutex` stays inside, or comes out owning, alone, the mutex it gave. */
  lemma WaitReturnsOwning(s: State, op: Op, t: Tid, m: Mid)
    requires Inv(s) && Enabled(s, op) && WaitsWith(s, t, m)
    ensures WaitsWith(Step(s, op), t, m) || OwnsAlone(Step(s, op), t, m)
    ensures t in Step(s, op).threads && (!WaitsWith(Step(s, op), t, m) ==> Step(s, op).threads[t].waiting == None)
  {
    StepInv(s, op);
    hide Queued, Fifo, Calls, Step;
    ReturnOf(s, op, t, m);
  }

  lemma ReturnOf(s: State, op: Op, t: Tid, m: Mid)
    requires Inv(s) && Enabled(s, op) && WaitsWith(s, t, m)
    ensures t in Step(s, op).threads
    ensures !WaitsWith(Step(s, op), t, m) ==> Holds(Step(s, op), t, m) && Step(s, op).threads[t].waiting == None
  {
    hide Owned, Fifo, CondQueues;
    var k := if op.Signal? then 0 else if op.Relock? then s.threads[op.t].phase.wm else op.m;
    if k in s.mutexes && s.mutexes[k].queue != [] { assert s.mutexes[k].queue[0] in s.mutexes[k].queue; }
  }

  /** The state before operation `k` of a run. */
  function At(s: State, ops: seq<Op>, k: nat): State
    requires Legal(s, ops) && k <= |ops|
    decreases k
  {
    if k == 0 then s else At(Step(s, ops[0]), ops[1..], k - 1)
  }

  /** From the call on, over any run: the thread stays inside up to some operation `k`, and if the run goes on after it,
      that operation brings it out owning, alone, the mutex it gave. */
  lemma {:induction false} WaitRun(s: State, t: Tid, m: Mid, ops: seq<Op>) returns (k: nat)
    requires Inv(s) && WaitsWith(s, t, m) && Legal(s, ops)
    ensures k <= |ops| && forall j: nat :: j <= k ==> WaitsWith(At(s, ops, j), t, m)
    ensures k < |ops| ==> OwnsAlone(At(s, ops, k + 1), t, m) && At(s, ops, k + 1).threads[t].waiting == None
    decreases |ops|
  {
    hide Inv, Step, Enabled, OwnsAlone;
    if ops == [] {
      k := 0;
    } else {
      WaitReturnsOwning(s, ops[0], t, m);
      StepInv(s, ops[0]);
      var s1 := Step(s, ops[0]);
      if WaitsWith(s1, t, m) {
        var k1 := WaitRun(s1, t, m, ops[1..]);
        k := k1 + 1;
        forall j: nat | j <= k ensures WaitsWith(At(s, ops, j), t, m) {
          if j > 0 { assert At(s, ops, j) == At(s1, ops[1..], j - 1); }
        }
        if k < |ops| { assert At(s, ops, k + 1) == At(s1, ops[1..], k1 + 1); }
      } else {
        k := 0;
        assert At(s, ops, 1) == At(s1, ops[1..], 0) == s1;
      }
    }
  }

  /** A call of `wait_with_mutex` gives up the mutex and, if it returns at all, returns owning that mutex. */
  lemma WaitCall(s: State, t: Tid, c: Cid, m: Mid, ops: seq<Op>) returns (k: nat)
    requires Inv(s) && Enabled(s, Wait(t, c, m)) && Legal(Step(s, Wait(t, c, m)), ops)
    ensures !Holds(Step(s, Wait(t, c, m)), t, m)
    ensures k <= |ops| && forall j: nat :: j <= k ==> WaitsWith(At(Step(s, Wait(t, c, m)), ops, j), t, m)
    ensures k < |ops| ==> OwnsAlone(At(Step(s, Wait(t, c, m)), ops, k + 1), t, m)
  {
    StepInv(s, Wait(t, c, m));
    WaitStarts(s, t, c, m);
    hide Inv, Step, Enabled, OwnsAlone;
    k := WaitRun(Step(s, Wait(t, c, m)), t, m, ops);
  }

  lemma WaitStarts(s: State, t: Tid, c: Cid, m: Mid)
    requires Inv(s) && Enabled(s, Wait(t, c, m))
    ensures WaitsWith(Step(s, Wait(t, c, m)), t, m) && !Holds(Step(s, Wait(t, c, m)), t, m)
  {
    hide Owned, Fifo, CondQueues;
    var q := s.mutexes[m].queue;
    if q != [] { assert q[0] in q && BlockedOn(s, q[0], MutexWait(m)); }
  }
}
