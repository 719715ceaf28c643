/**
 Aging in numbers (os/src/task/task.rs:65-77): which level a waiting task
 stands on after so many ticks, which task a fetch takes, and when a later
 task with a higher priority goes first.
 */
module SchedulerLaws {
  import opened Wrappers
  import opened Scheduler

  /** A task with base priority `base` that has waited so long has come to level `l`: 20 ticks for each level. */
  predicate CameTo(base: nat, waited: nat, l: nat) { l <= base || waited >= 20 * (l - base) }

  /** The level a queued task has earned, in numbers. */
  lemma EarnedInNumbers(i: Info, now: nat, l: nat)
    requires i.base <= 7 && i.readySince <= now && l <= 7
    ensures var waited := now - i.readySince;
            && (Earned(i, now) >= l <==> CameTo(i.base, waited, l))
            && (l < 7 ==>
                 (Earned(i, now) == l <==> i.base <= l && 20 * (l - i.base) <= waited < 20 * (l - i.base + 1)))
            && (Earned(i, now) == 7 <==> 20 * (7 - i.base) <= waited)
  {
    var waited := now - i.readySince;
    var q := waited / 20;
    assert 20 * q <= waited < 20 * (q + 1);
  }

  /** After a refresh a task stands on level `l` below the top iff it is queued and has waited 20 ticks for each level
      above its base, and less than 20 more; on the top level iff it has waited at least as long as that takes. */
  lemma StandsOn(s: State, x: Id, l: nat)
    requires BooksOk(s) && l < 8
    ensures x in RefreshState(s).queues[l] <==>
              && IsQueued(s.tasks, x)
              && var base, waited := s.tasks[x].base, s.now - s.tasks[x].readySince;
                 base <= l && 20 * (l - base) <= waited && (l < 7 ==> waited < 20 * (l - base + 1))
  {
    hide Earned, Count, Size;
    OkKnown(s);
    RefreshLevels(s.queues, s.tasks, s.now, l, x);
    if IsQueued(s.tasks, x) {
      assert InfoOk(s.tasks[x], s.now);
      EarnedInNumbers(s.tasks[x], s.now, l);
    }
  }

  /** A fetch hands out a queued task, if there is any, and no queued task has come to a level that this one has not. */
  lemma FetchTakesHighest(s: State, y: Id, l: nat)
    requires BooksOk(s) && l <= 7 && IsQueued(s.tasks, y)
    ensures Fetched(s).Some? && IsQueued(s.tasks, Fetched(s).value)
    ensures var x := Fetched(s).value;
            CameTo(s.tasks[y].base, s.now - s.tasks[y].readySince, l) ==>
              CameTo(s.tasks[x].base, s.now - s.tasks[x].readySince, l)
  {
    hide Earned, Count, Size, RefreshQueues;
    var q, e := RefreshQueues(s.queues, s.tasks, s.now), Earned(s.tasks[y], s.now);
    OkKnown(s);
    assert InfoOk(s.tasks[y], s.now);
    EarnedInNumbers(s.tasks[y], s.now, l);
    RefreshLevels(s.queues, s.tasks, s.now, e, y);
    assert y in q[e];
    NotEmpty(s);
    var p := Top(q, 8).value;
    var x := q[p][0];
    assert x in q[p] && p >= e;
    RefreshLevels(s.queues, s.tasks, s.now, p, x);
    assert IsQueued(s.tasks, x) && InfoOk(s.tasks[x], s.now);
    EarnedInNumbers(s.tasks[x], s.now, l);
  }

  lemma NotEmpty(s: State)
    requires BooksOk(s) && exists y :: IsQueued(s.tasks, y)
    ensures s.ready > 0
  {
    hide Size, Count;
    var y :| IsQueued(s.tasks, y);
    CountIn(s.queues, 0, y);
    SizePositive(s.queues, 0);
  }

  /** Without a queued task a fetch hands out none. */
  lemma FetchNone(s: State)
    requires BooksOk(s)
    ensures Fetched(s).None? <==> forall y :: !IsQueued(s.tasks, y)
  {
    hide Count, Size, RefreshQueues, Earned;
    if y :| IsQueued(s.tasks, y) {
      FetchTakesHighest(s, y, 0);
    } else {
      SizePositive(s.queues, 0);
      if s.ready > 0 {
        var p :| 0 <= p < 8 && s.queues[p] != [];
        CountIn(s.queues, 0, s.queues[p][0]);
      }
    }
  }

  // ----- over runs -----

  /** No operation from `from` up to `k` changes the base of `x`. */
  ghost predicate Fixed(ops: seq<Op>, from: nat, k: nat, x: Id) {
    k <= |ops| && forall i :: from <= i < k ==> !(ops[i].SetPriority? && ops[i].id == x)
  }

  /** `b` is queued with its base `bb`; `a` has base `ba` and, if queued, not since before `t0`. */
  ghost predicate Rivals(s: State, a: Id, ba: nat, b: Id, bb: nat, t0: nat) {
    && BooksOk(s) && t0 <= s.now && IsQueued(s.tasks, b) && s.tasks[b].base == bb && OldEnough(s, a, ba, t0)
  }

  ghost predicate OldEnough(s: State, a: Id, ba: nat, t0: nat) {
    a in s.tasks && s.tasks[a].base == ba && (s.tasks[a].queued ==> s.tasks[a].readySince >= t0)
  }

  /** A queued task stays queued until it is handed out. */
  lemma StaysQueued(s: State, op: Op, b: Id)
    requires BooksOk(s) && Enabled(s, op) && IsQueued(s.tasks, b) && !(op == Fetch && Fetched(s) == Some(b))
    ensures IsQueued(Step(s, op).tasks, b)
  {
    hide Count, Size, Earned, RefreshQueues;
    if op == Fetch && s.ready > 0 { Dispatched(s, b); }
  }

  lemma Dispatched(s: State, x: Id)
    requires BooksOk(s) && s.ready > 0 && x in s.tasks && Fetched(s) != Some(x)
    ensures x in Step(s, Fetch).tasks && Step(s, Fetch).tasks[x].queued == s.tasks[x].queued
    ensures Step(s, Fetch).tasks[x].readySince == s.tasks[x].readySince
  {
    hide Count, Size, Earned, RefreshQueues;
  }

  lemma StaysOld(s: State, op: Op, a: Id, ba: nat, t0: nat)
    requires BooksOk(s) && Enabled(s, op) && t0 <= s.now && OldEnough(s, a, ba, t0)
    requires !(op.SetPriority? && op.id == a)
    ensures OldEnough(Step(s, op), a, ba, t0) && t0 <= Step(s, op).now
  {
    hide Count, Size, Earned, RefreshQueues;
    BaseKept(s, op, a);
  }

  lemma {:induction false} RivalsRun(s: State, a: Id, ba: nat, b: Id, bb: nat, t0: nat, ops: seq<Op>, k: nat)
    returns (j: nat)
    requires Rivals(s, a, ba, b, bb, t0) && ba < bb && Legal(s, ops) && k < |ops|
    requires Fixed(ops, 0, k, a) && Fixed(ops, 0, k, b) && Returned(s, ops, k) == Some(a)
    requires At(s, ops, k).now < t0 + 20 * (bb - ba)
    ensures j < k && Returned(s, ops, j) == Some(b)
    decreases k
  {
    hide Step, Fetched, BooksOk, Enabled;
    if k == 0 {
      TooYoung(s, a, ba, b, bb, t0);
    } else if ops[0] == Fetch && Fetched(s) == Some(b) {
      j := 0;
    } else {
      StepOk(s, ops[0]);
      BaseKept(s, ops[0], b) by { QueuedKnown(s, b); }
      StaysQueued(s, ops[0], b);
      StaysOld(s, ops[0], a, ba, t0);
      var rest := ops[1..];
      assert forall i :: 0 <= i < k - 1 ==> rest[i] == ops[i + 1];
      j := RivalsRun(Step(s, ops[0]), a, ba, b, bb, t0, rest, k - 1);
      j := j + 1;
    }
  }

  lemma QueuedKnown(s: State, b: Id)
    requires IsQueued(s.tasks, b)
    ensures b in s.tasks
  {
  }

  /** A fetch does not hand out `a` before it has waited 20 ticks for each level that `b` is above it. */
  lemma TooYoung(s: State, a: Id, ba: nat, b: Id, bb: nat, t0: nat)
    requires Rivals(s, a, ba, b, bb, t0) && ba < bb && s.now < t0 + 20 * (bb - ba)
    ensures Fetched(s) != Some(a)
  {
    hide Count, Size, Earned, RefreshQueues, Fetched;
    assert InfoOk(s.tasks[b], s.now);
    FetchTakesHighest(s, b, bb);
  }

  /** The higher goes first.  `a` is made ready at the start of the run and `b`, with a higher base, by operation `m`;
      neither base is changed.  If a fetch hands out `a` before it has waited 20 ticks for each level of difference,
      `b` was handed out before. */
  lemma HigherFirst(s: State, a: Id, b: Id, ops: seq<Op>, m: nat, k: nat) returns (j: nat)
    requires BooksOk(s) && Legal(s, ops) && 0 < m < k < |ops| && a != b
    requires ops[0] == Add(a) && !s.tasks[a].queued && ops[m] == Add(b)
    requires b in At(s, ops, m).tasks && !At(s, ops, m).tasks[b].queued
    requires At(s, ops, m).tasks[b].base > s.tasks[a].base
    requires Fixed(ops, 0, k, a) && Fixed(ops, m, k, b) && Returned(s, ops, k) == Some(a)
    requires At(s, ops, k).now < s.now + 20 * (At(s, ops, m).tasks[b].base - s.tasks[a].base)
    ensures m < j < k && Returned(s, ops, j) == Some(b)
  {
    hide Step, Fetched, BooksOk, OldEnough;
    assert a in s.tasks;
    StartOld(s, a);
    j := OldRun(s, a, s.tasks[a].base, b, At(s, ops, m).tasks[b].base, s.now, ops, m, k);
  }

  lemma StartOld(s: State, a: Id)
    requires BooksOk(s) && a in s.tasks && !s.tasks[a].queued
    ensures OldEnough(s, a, s.tasks[a].base, s.now)
  {
  }

  lemma {:induction false} OldRun(s: State, a: Id, ba: nat, b: Id, bb: nat, t0: nat, ops: seq<Op>, m: nat, k: nat)
    returns (j: nat)
    requires BooksOk(s) && t0 <= s.now && OldEnough(s, a, ba, t0) && Legal(s, ops) && m < k < |ops| && a != b && ba < bb
    requires ops[m] == Add(b) && b in At(s, ops, m).tasks && !At(s, ops, m).tasks[b].queued
    requires At(s, ops, m).tasks[b].base == bb
    requires Fixed(ops, 0, k, a) && Fixed(ops, m, k, b) && Returned(s, ops, k) == Some(a)
    requires At(s, ops, k).now < t0 + 20 * (bb - ba)
    ensures m < j < k && Returned(s, ops, j) == Some(b)
    decreases m
  {
    hide Step, Fetched, BooksOk, OldEnough, Enabled;
    var s1, rest := Step(s, ops[0]), ops[1..];
    StepOk(s, ops[0]);
    StaysOld(s, ops[0], a, ba, t0);
    assert forall i :: 0 <= i < k - 1 ==> rest[i] == ops[i + 1];
    if m == 0 {
      Added(s, b);
      j := RivalsRun(s1, a, ba, b, bb, t0, rest, k - 1);
    } else {
      j := OldRun(s1, a, ba, b, bb, t0, rest, m - 1, k - 1);
    }
    j := j + 1;
  }

  lemma Added(s: State, b: Id)
    requires b in s.tasks && Enabled(s, Add(b))
    ensures IsQueued(Step(s, Add(b)).tasks, b) && Step(s, Add(b)).tasks[b].base == s.tasks[b].base
  {
  }

  // ----- what each call does to a task -----

  /** A task is spawned with its priority and is not queued; `set_base_priority` sets the base and nothing else does; a
      task is queued from `add_task` until it is handed out, and `add_task` notes the time. */
  lemma TaskLaws(s: State, op: Op, x: Id)
    requires BooksOk(s) && Enabled(s, op)
    ensures var s1 := Step(s, op);
            && (x in s1.tasks <==> x in s.tasks || (op.Spawn? && op.id == x))
            && (op.Spawn? && op.id == x ==> s1.tasks[x].base == op.priority && !s1.tasks[x].queued)
            && (x in s.tasks ==>
                 && s1.tasks[x].base == (if op.SetPriority? && op.id == x then op.priority else s.tasks[x].base)
                 && s1.tasks[x].queued ==
                    (op == Add(x) || (s.tasks[x].queued && !(op == Fetch && Fetched(s) == Some(x))))
                 && (op == Add(x) && !s.tasks[x].queued ==> s1.tasks[x].readySince == s.now))
            && s1.now == (if op.Advance? then s.now + op.ticks else s.now)
  {
    hide Count, Size, Earned, RefreshQueues;
    if op == Fetch { FetchLaws(s, x); }
  }

  lemma FetchLaws(s: State, x: Id)
    requires BooksOk(s)
    ensures var s1 := Step(s, Fetch);
            && s1.tasks.Keys == s.tasks.Keys && s1.now == s.now
            && (x in s.tasks ==>
                 && s1.tasks[x].base == s.tasks[x].base
                 && s1.tasks[x].queued == (s.tasks[x].queued && Fetched(s) != Some(x)))
  {
    hide Count, Size, Earned, RefreshQueues;
    if s.ready > 0 {
      RefreshOk(s);
      DispatchOk(RefreshState(s));
    }
  }

  /** A task of priority 0, made ready at tick 0, and one of priority 6, made ready at tick 7: the second goes first. */
  lemma SevenTicksAreTooFew()
    ensures var tasks: Tasks := map[1 := Info(0, 0, 0, 0, 0, 0, 0, true), 2 := Info(6, 6, 7, 0, 0, 0, 0, true)];
            var s := State([[1], [], [], [], [], [], [2], []], 2, tasks, 7);
            BooksOk(s) && Fetched(s) == Some(2)
  {
    var tasks: Tasks := map[1 := Info(0, 0, 0, 0, 0, 0, 0, true), 2 := Info(6, 6, 7, 0, 0, 0, 0, true)];
    var s := State([[1], [], [], [], [], [], [2], []], 2, tasks, 7);
    assert BooksOk(s) by {
      forall x ensures Count(s.queues, 0, x) == if x == 1 || x == 2 then 1 else 0 { CountTwo(s.queues, x); }
      SizeTwo(s.queues);
    }
    hide Count, Size, Earned, RefreshQueues, Fetched;
    FetchTakesHighest(s, 2, 6);
  }

  lemma CountTwo(q: Queues, x: Id)
    requires q == [[1], [], [], [], [], [], [2], []]
    ensures Count(q, 0, x) == if x == 1 || x == 2 then 1 else 0
  {
    assert Count(q, 6, x) == if x == 2 then 1 else 0;
    assert Count(q, 4, x) == Count(q, 5, x) == Count(q, 6, x);
    assert Count(q, 1, x) == Count(q, 2, x) == Count(q, 3, x) == Count(q, 4, x);
  }

  lemma SizeTwo(q: Queues)
    requires q == [[1], [], [], [], [], [], [2], []]
    ensures Size(q, 0) == 2
  {
    assert Size(q, 6) == 1 && Size(q, 4) == Size(q, 5) == 1;
    assert Size(q, 1) == Size(q, 2) == Size(q, 3) == Size(q, 4);
  }
}
