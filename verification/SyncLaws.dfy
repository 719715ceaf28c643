/**
 What each call on a blocking mutex or condition variable does, and that no
 signal is lost: over any run, the threads that began to wait are those woken
 and, behind them, those still in the queue, in the same order.
 */
module SyncLaws {
  import opened Sequences
  import opened Wrappers
  import opened BlockingSync

  /** No thread but `w` changes. */
  ghost predicate OnlyThread(s: State, s1: State, w: Tid) {
    s1.threads.Keys == s.threads.Keys && forall u :: u in s.threads && u != w ==> s1.threads[u] == s.threads[u]
  }

  predicate Blocked(s: State, t: Tid) {
    t in s.threads && (s.threads[t].phase.MutexWait? || s.threads[t].phase.CondWait?)
  }

  // ----- condition variables -----

  /** `signal` with a waiter: the first one is no longer blocked, on its way to the mutex it gave; the others wait on in
      the same order, and nothing else changes.  Without a waiter nothing happens. */
  lemma SignalWakes(s: State, t: Tid, c: Cid)
    requires Inv(s) && Enabled(s, Signal(t, c))
    ensures s.conds[c] == [] ==> Step(s, Signal(t, c)) == s
    ensures s.conds[c] != [] ==>
              var s1, w := Step(s, Signal(t, c)), s.conds[c][0];
              && Parked(s, w, c) && !Blocked(s1, w) && OnlyThread(s, s1, w)
              && s1.threads[w] == s.threads[w].(phase := Woken(s.threads[w].phase.cm))
              && s1.conds == s.conds[c := s.conds[c][1..]] && s1.mutexes == s.mutexes
  {
    hide Owned, Fifo, Calls, MutexQueues;
    if s.conds[c] != [] { assert s.conds[c][0] in s.conds[c]; }
  }

  /** `wait_with_mutex` puts the caller at the end of the queue, blocked, with the mutex it gave noted. */
  lemma WaitParks(s: State, t: Tid, c: Cid, m: Mid)
    requires Inv(s) && Enabled(s, Wait(t, c, m))
    ensures var s1 := Step(s, Wait(t, c, m));
            && s1.conds == s.conds[c := s.conds[c] + [t]] && t in s1.threads
            && s1.threads[t].phase == CondWait(c, m) && s1.threads[t].waiting == Some(m)
            && m !in s1.threads[t].held
  {
    WaitStarts(s, t, c, m);
    hide Inv;
  }

  /** The threads that begin to wait on `c` during a run, in order. */
  function Waits(ops: seq<Op>, c: Cid): seq<Tid> {
    if ops == [] then []
    else (if ops[0].Wait? && ops[0].c == c then [ops[0].t] else []) + Waits(ops[1..], c)
  }

  /** The threads that stand first in the queue of `c` when it is signalled, in order. */
  function Wakeups(s: State, ops: seq<Op>, c: Cid): seq<Tid>
    requires Legal(s, ops) && c in s.conds
    decreases |ops|
  {
    if ops == [] then []
    else
      var s1 := Step(s, ops[0]);
      (if ops[0].Signal? && ops[0].c == c && s.conds[c] != [] then [s.conds[c][0]] else [])
      + if c in s1.conds then Wakeups(s1, ops[1..], c) else []
  }

  lemma StepConds(s: State, op: Op, c: Cid)
    requires Inv(s) && Enabled(s, op) && c in s.conds
    ensures c in Step(s, op).conds
    ensures s.conds[c] + Waits([op], c) ==
            (if op.Signal? && op.c == c && s.conds[c] != [] then [s.conds[c][0]] else []) + Step(s, op).conds[c]
  {
    hide Inv;
    match op {
      case Signal(t, d) =>
        SignalWakes(s, t, d);
        assert s.conds[c] != [] ==> [s.conds[c][0]] + s.conds[c][1..] == s.conds[c];
      case Wait(t, d, m) => WaitParks(s, t, d, m);
      case _ =>
    }
  }

  /** No wakeup is lost and none is invented, over any run: who waited before it or began to wait in it has been woken
      by a signal, in that order, or is still in the queue. */
  lemma {:induction false} NoLostWakeups(s: State, ops: seq<Op>, c: Cid)
    requires Inv(s) && Legal(s, ops) && c in s.conds
    ensures c in Run(s, ops).conds
    ensures s.conds[c] + Waits(ops, c) == Wakeups(s, ops, c) + Run(s, ops).conds[c]
    decreases |ops|
  {
    hide Inv, Step, Enabled;
    if ops != [] {
      var s1, rest := Step(s, ops[0]), ops[1..];
      StepInv(s, ops[0]);
      StepConds(s, ops[0], c);
      NoLostWakeups(s1, rest, c);
      WaitsSplit(ops, c);
      var first := if ops[0].Signal? && ops[0].c == c && s.conds[c] != [] then [s.conds[c][0]] else [];
      Chained(s.conds[c], Waits([ops[0]], c), Waits(rest, c), first, s1.conds[c], Wakeups(s1, rest, c),
        Run(s1, rest).conds[c]);
    }
  }

  lemma WaitsSplit(ops: seq<Op>, c: Cid)
    requires ops != []
    ensures Waits(ops, c) == Waits([ops[0]], c) + Waits(ops[1..], c)
  {
    assert [ops[0]][1..] == [];
  }

  lemma Chained(q: seq<Tid>, w: seq<Tid>, ws: seq<Tid>, f: seq<Tid>, q1: seq<Tid>, fs: seq<Tid>, q2: seq<Tid>)
    requires q + w == f + q1 && q1 + ws == fs + q2
    ensures q + (w + ws) == (f + fs) + q2
  {
    assert q + (w + ws) == (q + w) + ws;
    assert (f + q1) + ws == f + (q1 + ws);
    assert f + (fs + q2) == (f + fs) + q2;
  }

  // ----- mutexes -----

  /** A lock call, or the one at the end of a wait: a free mutex is the caller's at once; otherwise it is the last in
      the queue, and blocked. */
  lemma LockTakes(s: State, t: Tid, m: Mid, op: Op)
    requires Inv(s) && Enabled(s, op) && m in s.mutexes
    requires op == Lock(t, m) || (op == Relock(t) && s.threads[t].phase == Woken(m))
    ensures var s1 := Step(s, op);
            && OnlyThread(s, s1, t) && s1.conds == s.conds && m in s1.mutexes
            && (forall k :: k in s.mutexes && k != m ==> k in s1.mutexes && s1.mutexes[k] == s.mutexes[k])
            && if s.mutexes[m].locked then
                 s1.threads[t].phase == MutexWait(m) && s1.mutexes[m].queue == s.mutexes[m].queue + [t]
               else
                 s1.threads[t].phase == Running && s1.threads[t].waiting == None && OwnsAlone(s1, t, m)
  {
    StepInv(s, op);
    hide Fifo, Calls, Queued;
  }

  /** `unlock`: the first waiter runs on and owns the mutex, alone, the rest wait on; without one it is free. */
  lemma UnlockPasses(s: State, t: Tid, m: Mid)
    requires Inv(s) && Enabled(s, Unlock(t, m))
    ensures var s1, q := Step(s, Unlock(t, m)), s.mutexes[m].queue;
            && !Holds(s1, t, m) && s1.conds == s.conds && m in s1.mutexes
            && (q == [] ==> !s1.mutexes[m].locked && OnlyThread(s, s1, t) && forall u :: !Holds(s1, u, m))
            && (q != [] ==>
                 && s1.mutexes[m].locked && s1.mutexes[m].queue == q[1..] && OwnsAlone(s1, q[0], m)
                 && s1.threads[q[0]].phase == Running && s1.threads[q[0]].waiting == None)
  {
    StepInv(s, Unlock(t, m));
    if s.mutexes[m].queue != [] { assert s.mutexes[m].queue[0] in s.mutexes[m].queue; }
    hide Fifo, Calls, CondQueues;
  }

  // ----- a wait and its signal -----

  /** Two threads, one mutex, one condition variable, nothing going on. */
  function TwoThreads(): State {
    State(map[0 := Mutex(false, [], [], [])], map[0 := []],
          map[1 := Thread(Running, {}, None), 2 := Thread(Running, {}, None)])
  }

  /** Thread 1 locks and waits, thread 2 signals, and thread 1 is back with the mutex. */
  lemma SignalledReturns()
    ensures var ops := [Lock(1, 0), Wait(1, 0, 0), Signal(2, 0), Relock(1)];
            && Initial(TwoThreads()) && Legal(TwoThreads(), ops)
            && Blocked(At(TwoThreads(), ops, 2), 1) && !Blocked(At(TwoThreads(), ops, 3), 1)
            && var s := Run(TwoThreads(), ops);
               1 in s.threads && s.threads[1] == Thread(Running, {0}, None) && s.mutexes[0].locked
  {
    var ops := [Lock(1, 0), Wait(1, 0, 0), Signal(2, 0), Relock(1)];
    var s0 := TwoThreads();
    var s1 := Step(s0, ops[0]);
    var s2 := Step(s1, ops[1]);
    var s3 := Step(s2, ops[2]);
    var s4 := Step(s3, ops[3]);
    var o1, o2, o3 := ops[1..], ops[1..][1..], ops[1..][1..][1..];
    assert o1 == [Wait(1, 0, 0), Signal(2, 0), Relock(1)] && o2 == [Signal(2, 0), Relock(1)] && o3 == [Relock(1)];
    assert o3[1..] == [] && Legal(s4, []);
    assert Legal(s3, o3) && Run(s3, o3) == s4;
    assert Legal(s2, o2) && Run(s2, o2) == s4;
    assert Legal(s1, o1) && Run(s1, o1) == s4;
    assert At(s0, ops, 2) == At(s1, o1, 1) == At(s2, o2, 0) == s2;
    assert At(s0, ops, 3) == At(s1, o1, 2) == At(s2, o2, 1) == At(s3, o3, 0) == s3;
  }
}
