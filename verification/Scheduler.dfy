/**
 Priority scheduling with aging (os/src/task/scheduler/priority.rs,
 os/src/task/task.rs, os/src/task/manager.rs): eight FIFO queues, rotated by
 a refresh that moves every task to the level its waiting time has earned.
 */
module Scheduler {
  import opened Sequences
  import opened Wrappers

  const MAX_PRIORITY := 7
  const TIME_SLICE_TICKS := 2
  const AGING_INTERVAL_TICKS := 20
  const USIZE_MAX := 0xffff_ffff_ffff_ffff

  type Id = nat
  type Queues = q: seq<seq<Id>> | |q| == 8 witness seq(8, _ => [])

  /** `SchedInfo`. */
  datatype Info = Info(base: nat, effective: nat, readySince: nat, runtime: nat, waited: nat, scheduled: nat,
      slice: nat, queued: bool)
  type Tasks = map<Id, Info>

  function SatSub(a: nat, b: nat): nat { if a < b then 0 else a - b }

  /** The level a queued task has earned at time `now`. */
  function Earned(i: Info, now: nat): (p: nat)
    ensures p <= MAX_PRIORITY
  {
    Min(i.base + SatSub(now, i.readySince) / AGING_INTERVAL_TICKS, MAX_PRIORITY)
  }

  // ----- `SchedInfo` -----

  function NewInfo(priority: nat): Info { Info(priority, priority, 0, 0, 0, 0, 0, false) }

  function OnEnqueue(i: Info, now: nat): Info {
    if i.queued then i else i.(readySince := now, slice := 0, queued := true)
  }

  function OnDispatch(i: Info, now: nat): Info {
    i.(waited := Min(i.waited + SatSub(now, i.readySince), USIZE_MAX), scheduled := Min(i.scheduled + 1, USIZE_MAX),
       slice := 0, queued := false, effective := i.base)
  }

  function OnTick(i: Info): Info { i.(runtime := Min(i.runtime + 1, USIZE_MAX), slice := Min(i.slice + 1, USIZE_MAX)) }

  function Refreshed(i: Info, now: nat): Info { i.(effective := if i.queued then Earned(i, now) else i.base) }

  function OnBlock(i: Info): Info { i.(slice := 0, queued := false, effective := i.base) }

  function SetBase(i: Info, priority: nat, now: nat): Info { Refreshed(i.(base := priority), now) }

  // ----- queues -----

  /** The tasks of `s` that have earned level `p`, in order. */
  function Pick(s: seq<Id>, tasks: Tasks, p: nat, now: nat): (r: seq<Id>)
    ensures forall x :: x in r <==> x in s && x in tasks && Earned(tasks[x], now) == p
  {
    if s == [] then []
    else
      var x := s[|s| - 1];
      Pick(s[..|s| - 1], tasks, p, now) + if x in tasks && Earned(tasks[x], now) == p then [x] else []
  }

  /** What levels 7 down to `low`, other than `p` itself, send to level `p`, highest first. */
  function Arrivals(q: Queues, tasks: Tasks, p: nat, low: nat, now: nat): seq<Id>
    requires low <= 8
    decreases 8 - low
  {
    if low == 8 then [] else Arrivals(q, tasks, p, low + 1, now) + if low == p then [] else Pick(q[low], tasks, p, now)
  }

  /** Level `p` after a refresh: those who stay, then the others by the level they came from. */
  function After(q: Queues, tasks: Tasks, p: nat, now: nat): seq<Id>
    requires p < 8
  {
    Pick(q[p], tasks, p, now) + Arrivals(q, tasks, p, 0, now)
  }

  /** `refresh_aging`. */
  function RefreshQueues(q: Queues, tasks: Tasks, now: nat): Queues {
    seq(8, p requires 0 <= p < 8 => After(q, tasks, p, now))
  }

  function RefreshTasks(tasks: Tasks, now: nat): Tasks {
    map x | x in tasks :: if tasks[x].queued then Refreshed(tasks[x], now) else tasks[x]
  }

  lemma PickLast(s: seq<Id>, x: Id, tasks: Tasks, p: nat, now: nat)
    ensures Pick(s + [x], tasks, p, now) == Pick(s, tasks, p, now) + if x in tasks
            && Earned(tasks[x], now) == p then [x] else []
  {
    hide Earned;
    assert (s + [x])[..|s|] == s;
  }

  lemma {:induction false} PickAppend(s: seq<Id>, t: seq<Id>, tasks: Tasks, p: nat, now: nat)
    ensures Pick(s + t, tasks, p, now) == Pick(s, tasks, p, now) + Pick(t, tasks, p, now)
  {
    hide Earned, Pick;
    if t == [] {
      assert s + t == s;
      PickNone(tasks, p, now);
    } else {
      var front, x := t[..|t| - 1], t[|t| - 1];
      assert t == front + [x] && s + t == s + front + [x];
      PickAppend(s, front, tasks, p, now);
      PickLast(s + front, x, tasks, p, now);
      PickLast(front, x, tasks, p, now);
    }
  }

  lemma PickNone(tasks: Tasks, p: nat, now: nat)
    ensures Pick([], tasks, p, now) == []
  {
  }

  lemma {:induction false} PickAll(s: seq<Id>, tasks: Tasks, p: nat, r: nat, now: nat)
    requires forall x :: x in s ==> x in tasks && Earned(tasks[x], now) == p
    ensures Pick(s, tasks, r, now) == if r == p then s else []
  {
    if s != [] {
      assert s[|s| - 1] in s;
      assert forall x :: x in s[..|s| - 1] ==> x in s;
      PickAll(s[..|s| - 1], tasks, p, r, now);
      assert s[..|s| - 1] + [s[|s| - 1]] == s;
    }
  }

  lemma {:induction false} ArrivalsEarned(q: Queues, tasks: Tasks, p: nat, low: nat, now: nat, x: Id)
    requires low <= 8
    ensures x in Arrivals(q, tasks, p, low, now) <==>
              x in tasks && Earned(tasks[x], now) == p && exists k :: low <= k < 8 && k != p && x in q[k]
    decreases 8 - low
  {
    hide Earned;
    if low < 8 {
      ArrivalsEarned(q, tasks, p, low + 1, now, x);
      var here := low != p && x in q[low];
      assert (exists k :: low <= k < 8 && k != p && x in q[k]) <==>
          here || exists k :: low + 1 <= k < 8 && k != p && x in q[k];
      InLast(Arrivals(q, tasks, p, low + 1, now), if low == p then [] else Pick(q[low], tasks, p, now), x);
    }
  }

  lemma InLast(s: seq<Id>, t: seq<Id>, x: Id)
    ensures x in s + t <==> x in s || x in t
  {
  }

  /** Level `level` half visited: the first `i` tasks of `w` have gone where they belong. */
  function Partial(q: Queues, tasks: Tasks, level: nat, i: nat, now: nat): Queues
    requires level < 8 && i <= |q[level]|
  {
    seq(8, p requires 0 <= p < 8 => (if p == level then q[level][i..] else q[p]) + Pick(q[level][..i], tasks, p, now))
  }

  /** The front of `level` goes to the back of `r`. */
  function MoveFront(q: Queues, level: nat, r: nat): Queues
    requires level < 8 && r < 8 && q[level] != []
  {
    var popped := q[level := q[level][1..]];
    popped[r := popped[r] + [q[level][0]]]
  }

  lemma MoveFrontAt(q: Queues, level: nat, r: nat, p: nat)
    requires level < 8 && r < 8 && p < 8 && q[level] != []
    ensures MoveFront(q, level, r)[p] == (if p == level then q[p][1..] else q[p]) + if p == r then [q[level][0]] else []
  {
  }

  lemma PartialFront(q: Queues, tasks: Tasks, level: nat, i: nat, now: nat)
    requires level < 8 && i < |q[level]|
    ensures var part := Partial(q, tasks, level, i, now);
            part[level] != [] && part[level][0] == q[level][i]
  {
    hide Pick, Earned;
  }

  lemma PartialAt(q: Queues, tasks: Tasks, level: nat, i: nat, now: nat, p: nat)
    requires level < 8 && i < |q[level]| && p < 8 && q[level][i] in tasks
    ensures var part := Partial(q, tasks, level, i, now);
            Partial(q, tasks, level, i + 1, now)[p] ==
            (if p == level then part[p][1..] else part[p]) + if p == Earned(tasks[q[level][i]], now) then [q[level][i]]
                else []
  {
    hide Earned, Pick;
    var w := q[level];
    var left := Pick(w[..i], tasks, p, now);
    assert w[..i + 1] == w[..i] + [w[i]];
    PickLast(w[..i], w[i], tasks, p, now);
    assert w[i..][1..] == w[i + 1..];
    assert (w[i..] + left)[1..] == w[i + 1..] + left;
  }

  lemma PartialStep(q: Queues, tasks: Tasks, level: nat, i: nat, now: nat)
    requires level < 8 && i < |q[level]| && q[level][i] in tasks
    ensures var part := Partial(q, tasks, level, i, now);
            && part[level] != [] && part[level][0] == q[level][i]
            && Partial(q, tasks, level, i + 1, now) == MoveFront(part, level, Earned(tasks[q[level][i]], now))
  {
    hide Earned, Partial, MoveFront;
    var part, r := Partial(q, tasks, level, i, now), Earned(tasks[q[level][i]], now);
    var next := Partial(q, tasks, level, i + 1, now);
    EarnedBound(tasks[q[level][i]], now);
    PartialFront(q, tasks, level, i, now);
    var moved := MoveFront(part, level, r);
    forall p | 0 <= p < 8 ensures next[p] == moved[p] {
      PartialAt(q, tasks, level, i, now, p);
      MoveFrontAt(part, level, r, p);
    }
  }

  lemma EarnedBound(i: Info, now: nat)
    ensures Earned(i, now) < 8
  {
  }

  /** The effective priority does not matter to what a task has earned. */
  lemma EarnedSame(i: Info, e: nat, now: nat)
    ensures Earned(i.(effective := e), now) == Earned(i, now) && Refreshed(i.(effective := e), now) == Refreshed(i, now)
  {
  }

  /** Levels 7 to `low` visited. */
  function Visited(q: Queues, tasks: Tasks, low: nat, now: nat): Queues
    requires low <= 8
  {
    seq(8, p requires 0 <= p < 8 => (if p < low then q[p]
        else Pick(q[p], tasks, p, now)) + Arrivals(q, tasks, p, low, now))
  }

  lemma VisitedAll(q: Queues, tasks: Tasks, now: nat)
    ensures Visited(q, tasks, 0, now) == RefreshQueues(q, tasks, now) && Visited(q, tasks, 8, now) == q
  {
    assert forall p :: 0 <= p < 8 ==> q[p] + Arrivals(q, tasks, p, 8, now) == q[p];
    assert forall p :: 0 <= p < 8 ==> Visited(q, tasks, 8, now)[p] == q[p];
  }

  /** Visiting one more level; tasks that a higher level has demoted here are seen again and stay where they are. */
  lemma VisitLevel(q: Queues, tasks: Tasks, level: nat, now: nat)
    requires level < 8
    ensures var v := Visited(q, tasks, level + 1, now);
            Partial(v, tasks, level, |v[level]|, now) == Visited(q, tasks, level, now)
  {
    hide Earned, Pick, Arrivals, Partial, Visited;
    var v := Visited(q, tasks, level + 1, now);
    var before, after := Partial(v, tasks, level, |v[level]|, now), Visited(q, tasks, level, now);
    forall p | 0 <= p < 8 ensures before[p] == after[p] { VisitLevelAt(q, tasks, level, now, p); }
  }

  lemma VisitLevelAt(q: Queues, tasks: Tasks, level: nat, now: nat, p: nat)
    requires level < 8 && p < 8
    ensures var v := Visited(q, tasks, level + 1, now);
            Partial(v, tasks, level, |v[level]|, now)[p] == Visited(q, tasks, level, now)[p]
  {
    hide Earned, Pick, Arrivals;
    var v := Visited(q, tasks, level + 1, now);
    var arrived := Arrivals(q, tasks, level, level + 1, now);
    var w := v[level];
    assert w == q[level] + arrived;
    assert w[..|w|] == w && w[|w|..] == [];
    forall x | x in arrived ensures x in tasks && Earned(tasks[x], now) == level {
      ArrivalsEarned(q, tasks, level, level + 1, now, x);
    }
    PickAppend(q[level], arrived, tasks, p, now);
    PickAll(arrived, tasks, level, p, now);
    ArrivalsNext(q, tasks, p, level, now);
  }

  lemma ArrivalsNext(q: Queues, tasks: Tasks, p: nat, low: nat, now: nat)
    requires low < 8
    ensures Arrivals(q, tasks, p, low, now) == Arrivals(q, tasks, p, low + 1, now) + if low == p then []
            else Pick(q[low], tasks, p, now)
  {
    hide Pick;
  }

  // ----- how often a task is examined -----

  /** The visit of level `l` examines the tasks that stand there when it begins. */
  predicate Examined(q: Queues, tasks: Tasks, now: nat, l: nat, x: Id)
    requires l < 8
  {
    x in Visited(q, tasks, l + 1, now)[l]
  }

  /** A task is examined at the level where it stands, and once more at the level it has earned iff that is lower. */
  lemma ExaminedAt(q: Queues, tasks: Tasks, now: nat, p: nat, x: Id, l: nat)
    requires p < 8 && l < 8 && x in tasks && x in q[p] && forall k :: 0 <= k < 8 && k != p ==> x !in q[k]
    ensures Examined(q, tasks, now, l, x) <==> l == p || (l == Earned(tasks[x], now) && l < p)
  {
    hide Earned;
    ArrivalsEarned(q, tasks, l, l + 1, now, x);
    InLast(q[l], Arrivals(q, tasks, l, l + 1, now), x);
  }

  /** So a task is examined exactly once iff it has not been demoted below the level where it stands. */
  lemma ExaminedOnce(q: Queues, tasks: Tasks, now: nat, p: nat, x: Id)
    requires p < 8 && x in tasks && x in q[p] && forall k :: 0 <= k < 8 && k != p ==> x !in q[k]
    ensures (forall l :: 0 <= l < 8 && Examined(q, tasks, now, l, x) ==> l == p) <==> p <= Earned(tasks[x], now)
  {
    hide Earned, Examined;
    EarnedBound(tasks[x], now);
    forall l: nat | l < 8 ensures Examined(q, tasks, now, l, x) <==> l == p || (l == Earned(tasks[x], now) && l < p) {
      ExaminedAt(q, tasks, now, p, x, l);
    }
    assert Earned(tasks[x], now) < p ==> Examined(q, tasks, now, Earned(tasks[x], now), x);
  }

  // ----- nobody is lost or duplicated -----

  /** How often `x` is queued at level `k` and up. */
  function Count(q: Queues, k: nat, x: Id): nat
    requires k <= 8
    decreases 8 - k
  {
    if k == 8 then 0 else multiset(q[k])[x] + Count(q, k + 1, x)
  }

  /** How many tasks are queued at level `k` and up. */
  function Size(q: Queues, k: nat): nat
    requires k <= 8
    decreases 8 - k
  {
    if k == 8 then 0 else |q[k]| + Size(q, k + 1)
  }

  lemma {:induction false} CountUpdate(q: Queues, p: nat, s: seq<Id>, k: nat, x: Id)
    requires p < 8 && k <= 8
    ensures Count(q[p := s], k, x) + (if k <= p then multiset(q[p])[x]
            else 0) == Count(q, k, x) + if k <= p then multiset(s)[x] else 0
    ensures Size(q[p := s], k) + (if k <= p then |q[p]| else 0) == Size(q, k) + if k <= p then |s| else 0
    decreases 8 - k
  {
    if k < 8 { CountUpdate(q, p, s, k + 1, x); }
  }

  lemma {:induction false} CountIn(q: Queues, k: nat, x: Id)
    requires k <= 8
    ensures Count(q, k, x) > 0 <==> exists p :: k <= p < 8 && x in q[p]
    decreases 8 - k
  {
    if k < 8 {
      CountIn(q, k + 1, x);
      assert multiset(q[k])[x] > 0 <==> x in q[k];
      assert (exists p :: k <= p < 8 && x in q[p]) <==> x in q[k] || exists p :: k + 1 <= p < 8 && x in q[p];
    }
  }

  lemma CountPop(s: seq<Id>, x: Id)
    requires s != []
    ensures multiset(s[1..])[x] == multiset(s)[x] - if x == s[0] then 1 else 0
  {
    assert s == [s[0]] + s[1..];
  }

  lemma CountPush(s: seq<Id>, y: Id, x: Id)
    ensures multiset(s + [y])[x] == multiset(s)[x] + if x == y then 1 else 0
  {
  }

  lemma MoveFrontKeeps(q: Queues, level: nat, r: nat, x: Id)
    requires level < 8 && r < 8 && q[level] != []
    ensures Count(MoveFront(q, level, r), 0, x) == Count(q, 0, x) && Size(MoveFront(q, level, r), 0) == Size(q, 0)
  {
    hide Count, Size;
    var y := q[level][0];
    var popped := q[level := q[level][1..]];
    CountUpdate(q, level, q[level][1..], 0, x);
    CountUpdate(popped, r, popped[r] + [y], 0, x);
    CountPop(q[level], x);
    CountPush(popped[r], y, x);
  }

  lemma {:induction false} PartialKeeps(q: Queues, tasks: Tasks, level: nat, i: nat, now: nat, x: Id)
    requires level < 8 && i <= |q[level]| && forall y :: y in q[level] ==> y in tasks
    ensures Count(Partial(q, tasks, level, i, now), 0, x) == Count(q, 0, x)
    ensures Size(Partial(q, tasks, level, i, now), 0) == Size(q, 0)
  {
    hide Earned, Partial, MoveFront, Count, Size;
    if i == 0 {
      PartialStart(q, tasks, level, now);
    } else {
      assert q[level][i - 1] in q[level];
      PartialKeeps(q, tasks, level, i - 1, now, x);
      PartialStep(q, tasks, level, i - 1, now);
      EarnedBound(tasks[q[level][i - 1]], now);
      MoveFrontKeeps(Partial(q, tasks, level, i - 1, now), level, Earned(tasks[q[level][i - 1]], now), x);
    }
  }

  ghost predicate Known(q: Queues, tasks: Tasks) { forall x :: Count(q, 0, x) > 0 ==> x in tasks }

  lemma KnownAt(q: Queues, tasks: Tasks, level: nat)
    requires Known(q, tasks) && level < 8
    ensures forall x :: x in q[level] ==> x in tasks
  {
    forall x | x in q[level] ensures x in tasks { CountIn(q, 0, x); }
  }

  lemma {:induction false} VisitedKeeps(q: Queues, tasks: Tasks, low: nat, now: nat, x: Id)
    requires low <= 8 && Known(q, tasks)
    ensures Count(Visited(q, tasks, low, now), 0, x) == Count(q, 0, x)
    ensures Size(Visited(q, tasks, low, now), 0) == Size(q, 0)
    decreases 8 - low
  {
    hide Earned, Partial, Visited, Count, Size;
    if low == 8 {
      VisitedAll(q, tasks, now);
    } else {
      VisitedKeeps(q, tasks, low + 1, now, x);
      var v := Visited(q, tasks, low + 1, now);
      VisitLevel(q, tasks, low, now);
      forall y ensures Count(v, 0, y) == Count(q, 0, y) { VisitedKeeps(q, tasks, low + 1, now, y); }
      KnownAt(v, tasks, low);
      PartialKeeps(v, tasks, low, |v[low]|, now, x);
    }
  }

  /** A refresh loses nobody and duplicates nobody. */
  lemma RefreshKeeps(q: Queues, tasks: Tasks, now: nat, x: Id)
    requires Known(q, tasks)
    ensures Count(RefreshQueues(q, tasks, now), 0, x) == Count(q, 0, x)
    ensures Size(RefreshQueues(q, tasks, now), 0) == Size(q, 0)
  {
    hide Visited, Count, Size, RefreshQueues;
    VisitedAll(q, tasks, now);
    VisitedKeeps(q, tasks, 0, now, x);
  }

  /** After a refresh, a task is at level `p` iff it was queued and has earned `p`. */
  lemma RefreshLevels(q: Queues, tasks: Tasks, now: nat, p: nat, x: Id)
    requires Known(q, tasks) && p < 8
    ensures x in RefreshQueues(q, tasks, now)[p] <==> Count(q, 0, x) > 0 && Earned(tasks[x], now) == p
  {
    hide Earned, Count;
    CountIn(q, 0, x);
    ArrivalsEarned(q, tasks, p, 0, now, x);
    InLast(Pick(q[p], tasks, p, now), Arrivals(q, tasks, p, 0, now), x);
  }

  // ----- order -----

  /** `a` stands before `b`. */
  ghost predicate Before(s: seq<Id>, a: Id, b: Id) { exists i, j :: 0 <= i < j < |s| && s[i] == a && s[j] == b }

  /** `a` at level `p` goes before `b` at level `r`. */
  ghost predicate Ahead(q: Queues, a: Id, p: nat, b: Id, r: nat) {
    r <= p < 8 && a in q[p] && b in q[r] && (p == r ==> Before(q[p], a, b))
  }

  lemma BeforeConcat(s: seq<Id>, t: seq<Id>, a: Id, b: Id)
    ensures a in s && b in t ==> Before(s + t, a, b)
    ensures Before(s, a, b) ==> Before(s + t, a, b)
    ensures Before(t, a, b) ==> Before(s + t, a, b)
  {
    var u := s + t;
    if a in s && b in t {
      var i :| 0 <= i < |s| && s[i] == a;
      var j :| 0 <= j < |t| && t[j] == b;
      assert u[i] == a && u[|s| + j] == b;
    }
    if Before(s, a, b) {
      var i, j :| 0 <= i < j < |s| && s[i] == a && s[j] == b;
      assert u[i] == a && u[j] == b;
    }
    if Before(t, a, b) {
      var i, j :| 0 <= i < j < |t| && t[i] == a && t[j] == b;
      assert u[|s| + i] == a && u[|s| + j] == b;
    }
  }

  lemma {:induction false} PickBefore(s: seq<Id>, tasks: Tasks, p: nat, now: nat, a: Id, b: Id)
    requires Before(s, a, b) && a in tasks && b in tasks && Earned(tasks[a], now) == p && Earned(tasks[b], now) == p
    ensures Before(Pick(s, tasks, p, now), a, b)
  {
    hide Earned;
    var i, j :| 0 <= i < j < |s| && s[i] == a && s[j] == b;
    assert s[..j] + s[j..] == s && s[..j][i] == a && s[j..][0] == b;
    PickAppend(s[..j], s[j..], tasks, p, now);
    assert a in s[..j] && b in s[j..];
    BeforeConcat(Pick(s[..j], tasks, p, now), Pick(s[j..], tasks, p, now), a, b);
  }

  lemma {:induction false} ArrivalsBefore(q: Queues, tasks: Tasks, e: nat, low: nat, now: nat, a: Id, p: nat, b: Id,
                                          r: nat)
    requires low <= r <= p < e && e < 8 && Ahead(q, a, p, b, r)
    requires a in tasks && b in tasks && Earned(tasks[a], now) == e && Earned(tasks[b], now) == e
    ensures Before(Arrivals(q, tasks, e, low, now), a, b)
    decreases 8 - low
  {
    hide Earned;
    var higher, here := Arrivals(q, tasks, e, low + 1, now), Pick(q[low], tasks, e, now);
    BeforeConcat(higher, here, a, b);
    if low < r {
      ArrivalsBefore(q, tasks, e, low + 1, now, a, p, b, r);
    } else if p == r {
      PickBefore(q[low], tasks, e, now, a, b);
    } else {
      ArrivalsEarned(q, tasks, e, low + 1, now, a);
    }
  }

  /** A refresh does not let `b` past `a` if `a` has earned at least as much and has not been moved down. */
  lemma RefreshAhead(q: Queues, tasks: Tasks, now: nat, a: Id, p: nat, b: Id, r: nat)
    requires Known(q, tasks) && Ahead(q, a, p, b, r) && a in tasks && b in tasks
    requires p <= Earned(tasks[a], now) && Earned(tasks[b], now) <= Earned(tasks[a], now)
    ensures Ahead(RefreshQueues(q, tasks, now), a, Earned(tasks[a], now), b, Earned(tasks[b], now))
  {
    hide Earned, Count, Pick, Arrivals, Before;
    EarnedBound(tasks[a], now);
    var e := Earned(tasks[a], now);
    CountIn(q, 0, a);
    CountIn(q, 0, b);
    RefreshLevels(q, tasks, now, e, a);
    RefreshLevels(q, tasks, now, Earned(tasks[b], now), b);
    if Earned(tasks[b], now) == e { SameLevelBefore(q, tasks, now, a, p, b, r); }
  }

  lemma SameLevelBefore(q: Queues, tasks: Tasks, now: nat, a: Id, p: nat, b: Id, r: nat)
    requires Ahead(q, a, p, b, r) && a in tasks && b in tasks && p <= Earned(tasks[a], now) == Earned(tasks[b], now)
    ensures Before(After(q, tasks, Earned(tasks[a], now), now), a, b)
  {
    hide Earned, Arrivals, Before;
    EarnedBound(tasks[a], now);
    var e := Earned(tasks[a], now);
    var stay, come := Pick(q[e], tasks, e, now), Arrivals(q, tasks, e, 0, now);
    BeforeConcat(stay, come, a, b);
    if p < e {
      ArrivalsBefore(q, tasks, e, 0, now, a, p, b, r);
    } else if r == e {
      PickBefore(q[e], tasks, e, now, a, b);
    } else {
      ArrivalsEarned(q, tasks, e, 0, now, b);
    }
  }

  /** Tasks differ in their effective priority at most. */
  ghost predicate SameBut(t0: Tasks, t1: Tasks) {
    t1.Keys == t0.Keys && forall x :: x in t0 ==> t1[x] == t0[x].(effective := t1[x].effective)
  }

  lemma {:induction false} PickSame(s: seq<Id>, t0: Tasks, t1: Tasks, p: nat, now: nat)
    requires SameBut(t0, t1)
    ensures Pick(s, t1, p, now) == Pick(s, t0, p, now)
  {
    if s != [] { PickSame(s[..|s| - 1], t0, t1, p, now); }
  }

  // ----- the machine -----

  /** The scheduler, every task's `SchedInfo`, and the clock. */
  datatype State = State(queues: Queues, ready: nat, tasks: Tasks, now: nat)

  datatype Op =
    | Spawn(id: Id, priority: nat)
    | Add(id: Id)
    | Fetch
    | Preempt
    | SetPriority(id: Id, priority: nat)
    | TimerTick(id: Id)
    | Block(id: Id)
    | Advance(ticks: nat)

  /** The highest level with a task, counting down from `k - 1`. */
  function Top(q: Queues, k: nat): (r: Option<nat>)
    requires k <= 8
    ensures r.Some? ==> r.value < k && q[r.value] != [] && forall p :: r.value < p < k ==> q[p] == []
    ensures r.None? ==> forall p :: 0 <= p < k ==> q[p] == []
  {
    if k == 0 then None else if q[k - 1] != [] then Some(k - 1) else Top(q, k - 1)
  }

  function RefreshState(s: State): State {
    s.(queues := RefreshQueues(s.queues, s.tasks, s.now), tasks := RefreshTasks(s.tasks, s.now))
  }

  /** What `fetch` returns. */
  function Fetched(s: State): Option<Id> {
    var q := RefreshQueues(s.queues, s.tasks, s.now);
    if s.ready == 0 || Top(q, 8).None? then None else Some(q[Top(q, 8).value][0])
  }

  /** Running tasks tick and block; only tasks that exist are added or changed. */
  predicate Enabled(s: State, op: Op) {
    match op
    case Spawn(id, p) => id !in s.tasks && p <= MAX_PRIORITY
    case Add(id) => id in s.tasks
    case SetPriority(id, p) => id in s.tasks && p <= MAX_PRIORITY
    case TimerTick(id) => id in s.tasks && !s.tasks[id].queued
    case Block(id) => id in s.tasks && !s.tasks[id].queued
    case _ => true
  }

  /** Popping the front of level `p`. */
  function Pop(q: Queues, p: nat): Queues
    requires p < 8 && q[p] != []
  {
    q[p := q[p][1..]]
  }

  function Dispatch(s: State): State {
    if s.ready == 0 || Top(s.queues, 8).None? then s
    else
      var p := Top(s.queues, 8).value;
      var x := s.queues[p][0];
      State(Pop(s.queues, p), s.ready - 1, if x in s.tasks then s.tasks[x := OnDispatch(s.tasks[x], s.now)]
          else s.tasks, s.now)
  }

  function Enqueue(s: State, id: Id): State
    requires id in s.tasks
  {
    if s.tasks[id].queued then s
    else
      var p := Min(s.tasks[id].effective, MAX_PRIORITY);
      State(s.queues[p := s.queues[p] + [id]], s.ready + 1, s.tasks[id := OnEnqueue(s.tasks[id], s.now)], s.now)
  }

  function Step(s: State, op: Op): State
    requires Enabled(s, op)
  {
    match op
    case Spawn(id, p) => s.(tasks := s.tasks[id := NewInfo(p)])
    case Add(id) => Enqueue(s, id)
    case Fetch => if s.ready == 0 then s else Dispatch(RefreshState(s))
    case Preempt => if s.ready == 0 then s else RefreshState(s)
    case SetPriority(id, p) => s.(tasks := s.tasks[id := SetBase(s.tasks[id], p, s.now)])
    case TimerTick(id) => s.(tasks := s.tasks[id := OnTick(s.tasks[id])])
    case Block(id) => s.(tasks := s.tasks[id := OnBlock(s.tasks[id])])
    case Advance(n) => s.(now := s.now + n)
  }

  // ----- the invariant -----

  ghost predicate InfoOk(i: Info, now: nat) {
    i.base <= MAX_PRIORITY && i.effective <= MAX_PRIORITY && (!i.queued ==>
        i.effective == i.base) && i.readySince <= now
  }

  predicate IsQueued(tasks: Tasks, x: Id) { x in tasks && tasks[x].queued }

  /** Each queued task stands in one place, each other task in none; the counter counts them; a task that is not queued
      runs at its base priority. */
  ghost predicate BooksOk(s: State) {
    && (forall x :: Count(s.queues, 0, x) == if IsQueued(s.tasks, x) then 1 else 0)
    && s.ready == Size(s.queues, 0)
    && forall x :: x in s.tasks ==> InfoOk(s.tasks[x], s.now)
  }

  lemma OkKnown(s: State)
    requires BooksOk(s)
    ensures Known(s.queues, s.tasks)
  {
    hide Count, Size;
  }

  lemma RefreshOk(s: State)
    requires BooksOk(s)
    ensures BooksOk(RefreshState(s))
    ensures forall x :: x in s.tasks ==>
              RefreshState(s).tasks[x] == s.tasks[x].(effective := RefreshState(s).tasks[x].effective)
  {
    hide Count, Size, RefreshQueues;
    OkKnown(s);
    var s1 := RefreshState(s);
    forall x ensures Count(s1.queues, 0, x) == Count(s.queues, 0, x) && Size(s1.queues, 0) == Size(s.queues, 0) {
      RefreshKeeps(s.queues, s.tasks, s.now, x);
    }
    assert Size(s1.queues, 0) == Size(s.queues, 0) by { RefreshKeeps(s.queues, s.tasks, s.now, 0); }
  }

  lemma {:induction false} SizePositive(q: Queues, k: nat)
    requires k <= 8
    ensures Size(q, k) > 0 <==> exists p :: k <= p < 8 && q[p] != []
    decreases 8 - k
  {
    if k < 8 {
      SizePositive(q, k + 1);
      assert (exists p :: k <= p < 8 && q[p] != []) <==> q[k] != [] || exists p :: k + 1 <= p < 8 && q[p] != [];
    }
  }

  /** With a task counted, some level is not empty: the `expect`s never fail. */
  lemma ReadyHasTop(s: State)
    requires BooksOk(s) && s.ready > 0
    ensures Top(s.queues, 8).Some?
  {
    SizePositive(s.queues, 0);
  }

  lemma DispatchOk(s: State)
    requires BooksOk(s) && s.ready > 0
    ensures Top(s.queues, 8).Some? && IsQueued(s.tasks, s.queues[Top(s.queues, 8).value][0]) && BooksOk(Dispatch(s))
  {
    hide Count, Size;
    ReadyHasTop(s);
    var p := Top(s.queues, 8).value;
    var y := s.queues[p][0];
    assert Count(s.queues, 0, y) > 0 by { CountIn(s.queues, 0, y); }
    var s1 := Dispatch(s);
    forall x ensures Count(s1.queues, 0, x) == (if IsQueued(s1.tasks, x) then 1
        else 0) && Size(s1.queues, 0) == Size(s.queues, 0) - 1 {
      CountUpdate(s.queues, p, s.queues[p][1..], 0, x);
      CountPop(s.queues[p], x);
    }
    assert Size(s1.queues, 0) == Size(s.queues, 0) - 1 by { CountUpdate(s.queues, p, s.queues[p][1..], 0, 0); }
  }

  lemma EnqueueOk(s: State, id: Id)
    requires BooksOk(s) && id in s.tasks
    ensures BooksOk(Enqueue(s, id))
  {
    hide Count, Size;
    if !s.tasks[id].queued {
      var p := Min(s.tasks[id].effective, MAX_PRIORITY);
      var s1 := Enqueue(s, id);
      forall x ensures Count(s1.queues, 0, x) == if IsQueued(s1.tasks, x) then 1 else 0 {
        CountUpdate(s.queues, p, s.queues[p] + [id], 0, x);
        CountPush(s.queues[p], id, x);
      }
      assert Size(s1.queues, 0) == Size(s.queues, 0) + 1 by { CountUpdate(s.queues, p, s.queues[p] + [id], 0, 0); }
    }
  }

  /** Every step keeps the invariant. */
  lemma StepOk(s: State, op: Op)
    requires BooksOk(s) && Enabled(s, op)
    ensures BooksOk(Step(s, op))
  {
    hide Count, Size, RefreshState, Dispatch, Enqueue, Earned;
    match op {
      case Add(id) => EnqueueOk(s, id);
      case Fetch => if s.ready > 0 { RefreshOk(s); RefreshReady(s); DispatchOk(RefreshState(s)); }
      case Preempt => if s.ready > 0 { RefreshOk(s); }
      case SetPriority(id, p) => EarnedBound(s.tasks[id].(base := p), s.now);
      case _ =>
    }
  }

  lemma RefreshReady(s: State)
    ensures RefreshState(s).ready == s.ready && RefreshState(s).now == s.now
    ensures RefreshState(s).tasks.Keys == s.tasks.Keys
  {
  }

  // ----- runs -----

  predicate Legal(s: State, ops: seq<Op>)
    decreases |ops|
  {
    ops == [] || (Enabled(s, ops[0]) && Legal(Step(s, ops[0]), ops[1..]))
  }

  /** The state before operation `k`. */
  function At(s: State, ops: seq<Op>, k: nat): State
    requires Legal(s, ops) && k <= |ops|
    decreases k
  {
    if k == 0 then s else At(Step(s, ops[0]), ops[1..], k - 1)
  }

  /** The task operation `k` hands out, if it is a fetch. */
  function Returned(s: State, ops: seq<Op>, k: nat): Option<Id>
    requires Legal(s, ops) && k < |ops|
    decreases k
  {
    if k > 0 then Returned(Step(s, ops[0]), ops[1..], k - 1) else if ops[0] == Fetch then Fetched(s) else None
  }

  /** The scheduler at the start. */
  function Idle(): State { State(seq(8, _ => []), 0, map[], 0) }

  /** A task made ready at the top level and then set to base 0: the next refresh meets it twice. */
  lemma DemotedIsExaminedTwice()
    ensures var start := Idle();
            var ops := [Spawn(1, 7), Add(1), SetPriority(1, 0)];
            && Legal(start, ops)
            && var s := At(start, ops, 3);
               Examined(s.queues, s.tasks, s.now, 7, 1) && Examined(s.queues, s.tasks, s.now, 0, 1)
  {
    hide Examined;
    var start := Idle();
    var ops := [Spawn(1, 7), Add(1), SetPriority(1, 0)];
    var s1 := Step(start, ops[0]);
    var s2 := Step(s1, ops[1]);
    var s3 := Step(s2, ops[2]);
    assert ops[1..] == [Add(1), SetPriority(1, 0)] && ops[1..][1..] == [SetPriority(1, 0)] && ops[1..][1..][1..] == [];
    assert Legal(s3, []) && Legal(s2, ops[1..][1..]) && Legal(s1, ops[1..]);
    assert At(start, ops, 3) == At(s1, ops[1..], 2) == At(s2, ops[1..][1..], 1) == s3;
    ExaminedAt(s3.queues, s3.tasks, s3.now, 7, 1, 7);
    ExaminedAt(s3.queues, s3.tasks, s3.now, 7, 1, 0);
  }

  lemma {:induction false} RunOk(s: State, ops: seq<Op>, k: nat)
    requires BooksOk(s) && Legal(s, ops) && k <= |ops|
    ensures BooksOk(At(s, ops, k))
    decreases k
  {
    hide BooksOk, Step, Enabled;
    if k > 0 {
      StepOk(s, ops[0]);
      RunOk(Step(s, ops[0]), ops[1..], k - 1);
    }
  }

  // ----- no overtaking -----

  lemma EarnedMonotone(i: Info, j: Info, now: nat, later: nat)
    requires now <= later
    ensures Earned(i, now) <= Earned(i, later)
    ensures j.base <= i.base && i.readySince <= j.readySince ==> Earned(j, now) <= Earned(i, now)
    ensures i.base <= 7 ==> i.base <= Earned(i, now)
  {
  }

  /** `a` waits at level `p`, no lower than its base and no higher than it has earned. */
  ghost predicate Leads(s: State, a: Id, p: nat) {
    BooksOk(s) && IsQueued(s.tasks, a) && p < 8 && a in s.queues[p] && s.tasks[a].base <= p <= Earned(s.tasks[a], s.now)
  }

  /** `a` became ready no later than `b`, with no lower base, and stands ahead of it. */
  ghost predicate Pair(s: State, a: Id, p: nat, b: Id, r: nat) {
    && Leads(s, a, p) && IsQueued(s.tasks, b) && a != b && Ahead(s.queues, a, p, b, r)
    && s.tasks[b].base <= s.tasks[a].base && s.tasks[a].readySince <= s.tasks[b].readySince
  }

  lemma RefreshLeads(s: State, a: Id, p: nat)
    requires Leads(s, a, p)
    ensures Leads(RefreshState(s), a, Earned(s.tasks[a], s.now))
  {
    hide Earned, Count, Size, RefreshQueues;
    RefreshOk(s);
    OkKnown(s);
    EarnedBound(s.tasks[a], s.now);
    EarnedMonotone(s.tasks[a], s.tasks[a], s.now, s.now);
    EarnedSame(s.tasks[a], RefreshState(s).tasks[a].effective, s.now);
    CountIn(s.queues, 0, a);
    RefreshLevels(s.queues, s.tasks, s.now, Earned(s.tasks[a], s.now), a);
  }

  lemma RefreshPair(s: State, a: Id, p: nat, b: Id, r: nat)
    requires Pair(s, a, p, b, r)
    ensures Pair(RefreshState(s), a, Earned(s.tasks[a], s.now), b, Earned(s.tasks[b], s.now))
  {
    hide Earned, Count, Size, RefreshQueues, Ahead, BooksOk;
    RefreshLeads(s, a, p);
    RefreshOk(s);
    OkKnown(s);
    EarnedMonotone(s.tasks[a], s.tasks[b], s.now, s.now);
    RefreshAhead(s.queues, s.tasks, s.now, a, p, b, r);
  }

  /** A task stands at one level, once. */
  lemma OnePlace(s: State, x: Id, p: nat, r: nat)
    requires BooksOk(s) && p < 8 && r < 8 && x in s.queues[p] && x in s.queues[r]
    ensures p == r && multiset(s.queues[p])[x] == 1
  {
    if p < r { CountTwice(s.queues, x, p, r, 0); } else if r < p { CountTwice(s.queues, x, r, p, 0); }
    CountAtLeast(s.queues, x, p, 0);
  }

  lemma {:induction false} CountAtLeast(q: Queues, x: Id, p: nat, k: nat)
    requires k <= p < 8
    ensures Count(q, k, x) >= multiset(q[p])[x]
    decreases 8 - k
  {
    if k < p { CountAtLeast(q, x, p, k + 1); }
  }

  lemma {:induction false} CountTwice(q: Queues, x: Id, p: nat, r: nat, k: nat)
    requires k <= p < r < 8 && x in q[p] && x in q[r]
    ensures Count(q, k, x) >= 2
    decreases 8 - k
  {
    if k < p {
      CountTwice(q, x, p, r, k + 1);
    } else {
      assert multiset(q[p])[x] >= 1;
      CountAtLeast(q, x, r, k + 1);
      assert multiset(q[r])[x] >= 1;
    }
  }

  /** Dispatching takes the front of the highest level: never `b`, and anyone but `a` leaves the order as it was. */
  lemma DispatchPair(s: State, a: Id, p: nat, b: Id, r: nat)
    requires Pair(s, a, p, b, r)
    ensures s.ready > 0 && Top(s.queues, 8).Some?
    ensures var x := s.queues[Top(s.queues, 8).value][0];
            x != b && (x != a ==> Pair(Dispatch(s), a, p, b, r))
  {
    hide Earned, Count, Size, Before;
    assert s.ready > 0 by { SizePositive(s.queues, 0); }
    DispatchOk(s);
    var top := Top(s.queues, 8).value;
    var x := s.queues[top][0];
    assert top >= p;
    if x == b {
      OnePlace(s, b, top, r);
      NotFirst(s.queues[p], a, b);
    }
    if x != a && x != b {
      if top == p { PopKeeps(s.queues[p], a, b); }
      if top == r { PopKeeps(s.queues[r], a, b); }
    }
  }

  lemma NotFirst(s: seq<Id>, a: Id, b: Id)
    requires a != b && s != [] && s[0] == b && multiset(s)[b] == 1
    ensures !Before(s, a, b)
  {
    assert s == [s[0]] + s[1..];
    assert multiset(s[1..])[b] == 0;
    assert forall j :: 1 <= j < |s| ==> s[j] == s[1..][j - 1] && s[j] in multiset(s[1..]);
  }

  lemma PopKeeps(s: seq<Id>, a: Id, b: Id)
    requires s != [] && s[0] != a && s[0] != b
    ensures (a in s ==> a in s[1..]) && (b in s ==> b in s[1..]) && (Before(s, a, b) ==> Before(s[1..], a, b))
  {
    if Before(s, a, b) {
      var i, j :| 0 <= i < j < |s| && s[i] == a && s[j] == b;
      assert s[1..][i - 1] == a && s[1..][j - 1] == b;
    }
  }

  lemma DispatchLeads(s: State, a: Id, p: nat)
    requires Leads(s, a, p)
    ensures s.ready > 0 && Top(s.queues, 8).Some?
    ensures s.queues[Top(s.queues, 8).value][0] != a ==> Leads(Dispatch(s), a, p)
  {
    hide Earned, Count, Size;
    assert s.ready > 0 by { SizePositive(s.queues, 0); }
    DispatchOk(s);
    var top := Top(s.queues, 8).value;
    if top == p && s.queues[top][0] != a { PopKeeps(s.queues[p], a, a); }
  }

  lemma EnqueuePair(s: State, a: Id, p: nat, b: Id, r: nat, id: Id)
    requires Pair(s, a, p, b, r) && id in s.tasks
    ensures Pair(Enqueue(s, id), a, p, b, r)
  {
    hide Earned, Count, Size, Before;
    EnqueueOk(s, id);
    if !s.tasks[id].queued {
      var l := Min(s.tasks[id].effective, MAX_PRIORITY);
      BeforeConcat(s.queues[p], [id], a, b);
    }
  }

  lemma EnqueueLeads(s: State, a: Id, p: nat, id: Id)
    requires Leads(s, a, p) && id in s.tasks
    ensures Leads(Enqueue(s, id), a, p)
  {
    hide Earned, Count, Size;
    EnqueueOk(s, id);
  }

  /** Steps without a queue change keep the order, whatever they do to other tasks. */
  lemma QuietPair(s: State, s1: State, a: Id, p: nat, b: Id, r: nat)
    requires Pair(s, a, p, b, r) && BooksOk(s1) && s1.queues == s.queues && s.now <= s1.now
    requires a in s1.tasks && s1.tasks[a] == s.tasks[a] && b in s1.tasks && s1.tasks[b] == s.tasks[b]
    ensures Pair(s1, a, p, b, r)
  {
    hide Earned, Count, Size, Before;
    EarnedMonotone(s.tasks[a], s.tasks[a], s.now, s1.now);
  }

  lemma QuietLeads(s: State, s1: State, a: Id, p: nat)
    requires Leads(s, a, p) && BooksOk(s1) && s1.queues == s.queues && s.now <= s1.now && a in s1.tasks
    requires s1.tasks[a] == s.tasks[a]
    ensures Leads(s1, a, p)
  {
    hide Earned, Count, Size;
    EarnedMonotone(s.tasks[a], s.tasks[a], s.now, s1.now);
  }

  /** One step: `b` is not handed out, and unless `a` is, the pair stays in order. */
  lemma PairStep(s: State, a: Id, p: nat, b: Id, r: nat, op: Op) returns (p1: nat, r1: nat)
    requires Pair(s, a, p, b, r) && Enabled(s, op) && !(op.SetPriority? && (op.id == a || op.id == b))
    ensures op == Fetch ==> Fetched(s).Some? && Fetched(s) != Some(b)
    ensures (op == Fetch && Fetched(s) == Some(a)) || Pair(Step(s, op), a, p1, b, r1)
  {
    hide Earned, Count, Size, RefreshQueues, Dispatch, Enqueue, BooksOk, Ahead;
    StepOk(s, op);
    p1, r1 := p, r;
    match op {
      case Add(id) => EnqueuePair(s, a, p, b, r, id);
      case Fetch =>
        p1, r1 := Earned(s.tasks[a], s.now), Earned(s.tasks[b], s.now);
        RefreshPair(s, a, p, b, r);
        DispatchPair(RefreshState(s), a, p1, b, r1);
      case Preempt =>
        if s.ready > 0 {
          p1, r1 := Earned(s.tasks[a], s.now), Earned(s.tasks[b], s.now);
          RefreshPair(s, a, p, b, r);
        }
      case _ => QuietPair(s, Step(s, op), a, p, b, r);
    }
  }

  lemma LeadsStep(s: State, a: Id, p: nat, op: Op) returns (p1: nat)
    requires Leads(s, a, p) && Enabled(s, op) && !(op.SetPriority? && op.id == a)
    ensures (op == Fetch && Fetched(s) == Some(a)) || Leads(Step(s, op), a, p1)
    ensures Step(s, op).tasks.Keys >= s.tasks.Keys
    ensures (op == Fetch && Fetched(s) == Some(a)) || (a in Step(s, op).tasks
            && Step(s, op).tasks[a].base == s.tasks[a].base)
  {
    hide Earned, Count, Size, RefreshQueues, Dispatch, Enqueue, BooksOk;
    StepOk(s, op);
    p1 := p;
    BaseKept(s, op, a);
    match op {
      case Add(id) => EnqueueLeads(s, a, p, id);
      case Fetch =>
        p1 := Earned(s.tasks[a], s.now);
        RefreshLeads(s, a, p);
        DispatchLeads(RefreshState(s), a, p1);
      case Preempt =>
        if s.ready > 0 {
          p1 := Earned(s.tasks[a], s.now);
          RefreshLeads(s, a, p);
        }
      case _ => QuietLeads(s, Step(s, op), a, p);
    }
  }

  /** Only `set_base_priority` changes a base priority. */
  lemma BaseKept(s: State, op: Op, a: Id)
    requires Enabled(s, op) && a in s.tasks
    ensures Step(s, op).tasks.Keys >= s.tasks.Keys
    ensures !(op.SetPriority? && op.id == a) ==> Step(s, op).tasks[a].base == s.tasks[a].base
  {
    hide RefreshQueues, Earned;
  }

  /** Some operation before `i` hands out `a`. */
  predicate HandedOut(s: State, ops: seq<Op>, i: nat, a: Id)
    requires Legal(s, ops) && i <= |ops|
  {
    exists j :: 0 <= j < i && Returned(s, ops, j) == Some(a)
  }

  /** From operation `from` up to `k`, the base of `x` is not changed as long as `a` waits. */
  ghost predicate Frozen(s: State, ops: seq<Op>, from: nat, k: nat, a: Id, x: Id)
    requires Legal(s, ops) && k <= |ops|
  {
    forall i :: from <= i < k && ops[i].SetPriority? && ops[i].id == x ==> HandedOut(s, ops, i, a)
  }

  lemma FrozenNext(s: State, ops: seq<Op>, from: nat, k: nat, a: Id, x: Id)
    requires Legal(s, ops) && 0 < k <= |ops| && Frozen(s, ops, from, k, a, x) && Returned(s, ops, 0) != Some(a)
    ensures Frozen(Step(s, ops[0]), ops[1..], if from == 0 then 0 else from - 1, k - 1, a, x)
  {
    hide Step, Fetched, Enabled;
    var s1, rest := Step(s, ops[0]), ops[1..];
    forall i | (if from == 0 then 0 else from - 1) <= i < k - 1 && rest[i].SetPriority? && rest[i].id == x
      ensures HandedOut(s1, rest, i, a)
    {
      assert ops[i + 1] == rest[i];
      var j :| 0 <= j < i + 1 && Returned(s, ops, j) == Some(a);
      assert Returned(s1, rest, j - 1) == Some(a);
    }
  }

  lemma StillFrozen(s: State, ops: seq<Op>, k: nat, a: Id, x: Id)
    requires Legal(s, ops) && 0 < k <= |ops| && Frozen(s, ops, 0, k, a, x)
    ensures !(ops[0].SetPriority? && ops[0].id == x)
  {
    hide Step, Fetched, Enabled;
  }

  /** From a pair in order, `b` comes out only after `a`. */
  lemma {:induction false} PairRun(s: State, a: Id, p: nat, b: Id, r: nat, ops: seq<Op>, k: nat) returns (j: nat)
    requires Pair(s, a, p, b, r) && Legal(s, ops) && k < |ops| && Returned(s, ops, k) == Some(b)
    requires Frozen(s, ops, 0, k, a, a) && Frozen(s, ops, 0, k, a, b)
    ensures j < k && Returned(s, ops, j) == Some(a)
    decreases k
  {
    hide Pair, Step, Enabled, Fetched;
    if k > 0 { StillFrozen(s, ops, k, a, a); StillFrozen(s, ops, k, a, b); }
    var p1, r1 := PairStep(s, a, p, b, r, ops[0]);
    if ops[0] == Fetch && Fetched(s) == Some(a) {
      j := 0;
    } else {
      FrozenNext(s, ops, 0, k, a, a);
      FrozenNext(s, ops, 0, k, a, b);
      j := PairRun(Step(s, ops[0]), a, p1, b, r1, ops[1..], k - 1);
      j := j + 1;
    }
  }

  /** Enqueuing `b` behind a waiting `a` puts the pair in order. */
  lemma PairStart(s: State, a: Id, p: nat, b: Id)
    requires Leads(s, a, p) && b in s.tasks && !s.tasks[b].queued && s.tasks[b].base <= s.tasks[a].base
    ensures Pair(Enqueue(s, b), a, p, b, s.tasks[b].base)
  {
    hide Earned, Count, Size;
    EnqueueOk(s, b);
    var l := s.tasks[b].base;
    var s1 := Enqueue(s, b);
    assert InfoOk(s.tasks[b], s.now) && InfoOk(s.tasks[a], s.now);
    assert s1.queues[l] == s.queues[l] + [b];
    BeforeConcat(s.queues[l], [b], a, b);
  }

  /** No overtaking.  `a` is made ready at the start of the run and `b` by operation `m`, at no higher base; while
      `a` waits its base is not changed, nor `b`'s after `m`.  Then `b` is handed out only after `a` was, whatever else
      happens. */
  lemma {:induction false} NoOvertaking(s: State, a: Id, b: Id, ops: seq<Op>, m: nat, k: nat) returns (j: nat)
    requires BooksOk(s) && Legal(s, ops) && 0 < m < k < |ops| && a != b
    requires ops[0] == Add(a) && !s.tasks[a].queued && ops[m] == Add(b)
    requires b in At(s, ops, m).tasks && !At(s, ops, m).tasks[b].queued
    requires At(s, ops, m).tasks[b].base <= s.tasks[a].base
    requires Frozen(s, ops, 0, k, a, a) && Frozen(s, ops, m + 1, k, a, b) && Returned(s, ops, k) == Some(b)
    ensures 0 < j < k && Returned(s, ops, j) == Some(a)
  {
    hide Step, Fetched, BooksOk, Leads;
    var s1 := Step(s, ops[0]);
    LeadsStart(s, a);
    FrozenNext(s, ops, 0, k, a, a);
    FrozenNext(s, ops, m + 1, k, a, b);
    j := LeadsRun(s1, a, s.tasks[a].base, b, ops[1..], m - 1, k - 1);
    j := j + 1;
  }

  lemma LeadsStart(s: State, a: Id)
    requires BooksOk(s) && a in s.tasks && !s.tasks[a].queued
    ensures Leads(Step(s, Add(a)), a, s.tasks[a].base) && a in Step(s, Add(a)).tasks
    ensures Step(s, Add(a)).tasks[a].base == s.tasks[a].base
  {
    hide Earned, Count, Size;
    EnqueueOk(s, a);
    assert InfoOk(s.tasks[a], s.now);
    EarnedMonotone(Step(s, Add(a)).tasks[a], s.tasks[a], s.now, s.now);
  }

  lemma {:induction false} LeadsRun(s: State, a: Id, p: nat, b: Id, ops: seq<Op>, m: nat, k: nat) returns (j: nat)
    requires Leads(s, a, p) && Legal(s, ops) && m < k < |ops| && a != b && ops[m] == Add(b)
    requires b in At(s, ops, m).tasks && !At(s, ops, m).tasks[b].queued
    requires At(s, ops, m).tasks[b].base <= s.tasks[a].base
    requires Frozen(s, ops, 0, k, a, a) && Frozen(s, ops, m + 1, k, a, b) && Returned(s, ops, k) == Some(b)
    ensures j < k && Returned(s, ops, j) == Some(a)
    decreases m
  {
    hide Step, Fetched, BooksOk, Leads, Pair, Frozen;
    if m == 0 {
      assert Step(s, ops[0]) == Enqueue(s, b) by { StepAdd(s, b); }
      FrozenNext(s, ops, 0, k, a, a);
      FrozenNext(s, ops, 1, k, a, b);
      PairStart(s, a, p, b);
      j := PairRun(Step(s, ops[0]), a, p, b, s.tasks[b].base, ops[1..], k - 1);
      j := j + 1;
    } else {
      StillFrozen(s, ops, k, a, a);
      var p1 := LeadsStep(s, a, p, ops[0]);
      if ops[0] == Fetch && Fetched(s) == Some(a) {
        j := 0;
      } else {
        FrozenNext(s, ops, 0, k, a, a);
        FrozenNext(s, ops, m + 1, k, a, b);
        j := LeadsRun(Step(s, ops[0]), a, p1, b, ops[1..], m - 1, k - 1);
        j := j + 1;
      }
    }
  }

  lemma StepAdd(s: State, b: Id)
    requires b in s.tasks
    ensures Step(s, Add(b)) == Enqueue(s, b)
  {
  }

  // ----- bounded starvation -----

  /** Ticks after which every waiting task has earned the top level. */
  const FULL_BOOST := 140

  /** `x` stands at index `k` of `s`. */
  ghost predicate StandsAt(s: seq<Id>, x: Id, k: nat) { k < |s| && s[k] == x }

  lemma OldEarnsTop(i: Info, now: nat)
    requires i.readySince + FULL_BOOST <= now
    ensures Earned(i, now) == MAX_PRIORITY
  {
  }

  /** However its priority was set, a task that has waited 140 ticks sits in level 7 after the refresh of any
      dequeue. */
  lemma OldSitsOnTop(s: State, a: Id)
    requires BooksOk(s) && IsQueued(s.tasks, a) && s.tasks[a].readySince + FULL_BOOST <= s.now
    ensures a in RefreshState(s).queues[7]
  {
    hide Earned, Count, Size, RefreshQueues;
    OkKnown(s);
    OldEarnsTop(s.tasks[a], s.now);
    RefreshLevels(s.queues, s.tasks, s.now, 7, a);
  }

  /** `a` has waited long enough and is at level 7 with at most `k` tasks before it. */
  ghost predicate Waits(s: State, a: Id, k: nat) {
    && BooksOk(s) && IsQueued(s.tasks, a) && s.tasks[a].readySince + FULL_BOOST <= s.now
    && exists i: nat :: i <= k && StandsAt(s.queues[7], a, i)
  }

  lemma {:induction false} PickPosition(s: seq<Id>, tasks: Tasks, p: nat, now: nat, x: Id, i: nat) returns (j: nat)
    requires StandsAt(s, x, i) && x in tasks && Earned(tasks[x], now) == p
    ensures j <= i && StandsAt(Pick(s, tasks, p, now), x, j)
  {
    hide Earned, Pick;
    assert s[..i] + s[i..] == s;
    PickAppend(s[..i], s[i..], tasks, p, now);
    assert s[i..] == [x] + s[i..][1..];
    PickAppend([x], s[i..][1..], tasks, p, now);
    PickOne(x, tasks, p, now);
    j := |Pick(s[..i], tasks, p, now)|;
    PickShorter(s[..i], tasks, p, now);
  }

  lemma PickOne(x: Id, tasks: Tasks, p: nat, now: nat)
    requires x in tasks && Earned(tasks[x], now) == p
    ensures Pick([x], tasks, p, now) == [x]
  {
    hide Earned;
    var one := [x];
    assert one[..0] == [];
  }

  lemma {:induction false} PickShorter(s: seq<Id>, tasks: Tasks, p: nat, now: nat)
    ensures |Pick(s, tasks, p, now)| <= |s|
  {
    hide Earned;
    if s != [] { PickShorter(s[..|s| - 1], tasks, p, now); }
  }

  /** A refresh never puts anyone before a task already on top. */
  lemma RefreshWaits(s: State, a: Id, k: nat)
    requires Waits(s, a, k)
    ensures Waits(RefreshState(s), a, k)
  {
    hide Earned, Count, Size, Pick, Arrivals;
    RefreshOk(s);
    OldEarnsTop(s.tasks[a], s.now);
    var i: nat :| i <= k && StandsAt(s.queues[7], a, i);
    var j := PickPosition(s.queues[7], s.tasks, 7, s.now, a, i);
    assert StandsAt(RefreshState(s).queues[7], a, j);
  }

  lemma DispatchWaits(s: State, a: Id, k: nat)
    requires Waits(s, a, k)
    ensures s.ready > 0 && Top(s.queues, 8) == Some(7)
    ensures s.queues[7][0] != a ==> k > 0 && Waits(Dispatch(s), a, k - 1)
  {
    hide Earned, Count, Size;
    assert s.ready > 0 by { SizePositive(s.queues, 0); }
    DispatchOk(s);
    var i: nat :| i <= k && StandsAt(s.queues[7], a, i);
    if s.queues[7][0] != a {
      assert StandsAt(Dispatch(s).queues[7], a, i - 1);
    }
  }

  /** One step: a fetch hands `a` out or brings it strictly closer; nothing moves it back, priority changes included. */
  lemma WaitsStep(s: State, a: Id, k: nat, op: Op)
    requires Waits(s, a, k) && Enabled(s, op)
    ensures op != Fetch ==> Waits(Step(s, op), a, k)
    ensures op == Fetch ==> Fetched(s) == Some(a) || (k > 0 && Waits(Step(s, op), a, k - 1))
  {
    hide Earned, Count, Size, RefreshQueues, Dispatch, BooksOk;
    StepOk(s, op);
    if s.ready > 0 { RefreshWaits(s, a, k); }
    match op {
      case Add(id) =>
        var i: nat :| i <= k && StandsAt(s.queues[7], a, i);
        assert StandsAt(Step(s, op).queues[7], a, i);
      case Fetch =>
        DispatchWaits(s, a, k);
        DispatchWaits(RefreshState(s), a, k);
      case Preempt =>
      case _ =>
        var i: nat :| i <= k && StandsAt(s.queues[7], a, i);
        assert StandsAt(Step(s, op).queues[7], a, i);
    }
  }

  /** How many fetches there are. */
  function Fetches(ops: seq<Op>): nat {
    if ops == [] then 0 else (if ops[0] == Fetch then 1 else 0) + Fetches(ops[1..])
  }

  /** Bounded starvation: with at most `k` tasks before it on top, a task is handed out within `k + 1` fetches of any
      run, whatever is added, blocked or re-prioritised meanwhile. */
  lemma {:induction false} BoundedStarvation(s: State, a: Id, k: nat, ops: seq<Op>) returns (j: nat)
    requires Waits(s, a, k) && Legal(s, ops) && Fetches(ops) > k
    ensures j < |ops| && Returned(s, ops, j) == Some(a)
    decreases |ops|
  {
    hide Waits, Step, Enabled, Fetched;
    WaitsStep(s, a, k, ops[0]);
    if ops[0] == Fetch && Fetched(s) == Some(a) {
      j := 0;
    } else {
      j := BoundedStarvation(Step(s, ops[0]), a, if ops[0] == Fetch then k - 1 else k, ops[1..]);
      j := j + 1;
    }
  }

  /** A fetch 140 ticks after `a` became ready hands it out or leaves it on top, so the bound applies from there. */
  lemma FirstLateFetch(s: State, a: Id)
    requires BooksOk(s) && IsQueued(s.tasks, a) && s.tasks[a].readySince + FULL_BOOST <= s.now
    ensures Fetched(s) == Some(a) || exists k: nat :: k < |RefreshState(s).queues[7]| && Waits(Step(s, Fetch), a, k)
  {
    hide Earned, Count, Size, RefreshQueues, Dispatch, BooksOk;
    RefreshOk(s);
    OldSitsOnTop(s, a);
    var r := RefreshState(s);
    var i :| 0 <= i < |r.queues[7]| && r.queues[7][i] == a;
    assert StandsAt(r.queues[7], a, i);
    assert Waits(r, a, i);
    DispatchWaits(r, a, i);
    RefreshReady(s);
    assert Step(s, Fetch) == Dispatch(r);
    assert r.queues[7][0] != a ==> Waits(Step(s, Fetch), a, i - 1);
  }

  // ----- accounting -----

  /** How often `a` is handed out, and how long it had waited each time. */
  function Dispatches(s: State, ops: seq<Op>, a: Id): nat
    requires Legal(s, ops)
    decreases |ops|
  {
    if ops == [] then 0
    else (if ops[0] == Fetch && Fetched(s) == Some(a) then 1 else 0) + Dispatches(Step(s, ops[0]), ops[1..], a)
  }

  function WaitedFor(s: State, ops: seq<Op>, a: Id): nat
    requires Legal(s, ops)
    decreases |ops|
  {
    if ops == [] then 0
    else
      (if ops[0] == Fetch && Fetched(s) == Some(a) && a in s.tasks then SatSub(s.now, s.tasks[a].readySince) else 0)
      + WaitedFor(Step(s, ops[0]), ops[1..], a)
  }

  /** One step: only a fetch that hands `a` out moves its counters, and `readySince` moves only when it is enqueued. */
  lemma StepAccounts(s: State, op: Op, a: Id)
    requires BooksOk(s) && Enabled(s, op) && a in s.tasks
    ensures a in Step(s, op).tasks
    ensures var i, j, out := s.tasks[a], Step(s, op).tasks[a], op == Fetch && Fetched(s) == Some(a);
            && j.scheduled == (if out then Min(i.scheduled + 1, USIZE_MAX) else i.scheduled)
            && j.waited == (if out then Min(i.waited + SatSub(s.now, i.readySince), USIZE_MAX) else i.waited)
            && j.readySince == (if op == Add(a) && !i.queued then s.now else i.readySince)
            && j.runtime == (if op == TimerTick(a) then Min(i.runtime + 1, USIZE_MAX) else i.runtime)
            && j.slice == (if op == TimerTick(a) then Min(i.slice + 1, USIZE_MAX)
                           else if out || op == Block(a) || (op == Add(a) && !i.queued) then 0 else i.slice)
  {
    hide Earned, Count, Size, RefreshQueues;
    if op == Fetch && s.ready > 0 {
      RefreshOk(s);
      DispatchOk(RefreshState(s));
    }
  }

  function TicksOf(ops: seq<Op>, a: Id): nat {
    if ops == [] then 0 else (if ops[0] == TimerTick(a) then 1 else 0) + TicksOf(ops[1..], a)
  }

  /** Over every run, `runtime_ticks` counts a task's timer ticks,
      `scheduled_count` counts the times a task was handed out and `total_wait_ticks` adds up its waits,
      all saturating. */
  lemma {:induction false} RunAccounts(s: State, ops: seq<Op>, a: Id)
    requires BooksOk(s) && Legal(s, ops) && a in s.tasks && s.tasks[a].scheduled <= USIZE_MAX
    requires s.tasks[a].waited <= USIZE_MAX && s.tasks[a].runtime <= USIZE_MAX
    ensures a in At(s, ops, |ops|).tasks
    ensures At(s, ops, |ops|).tasks[a].scheduled == Min(s.tasks[a].scheduled + Dispatches(s, ops, a), USIZE_MAX)
    ensures At(s, ops, |ops|).tasks[a].waited == Min(s.tasks[a].waited + WaitedFor(s, ops, a), USIZE_MAX)
    ensures At(s, ops, |ops|).tasks[a].runtime == Min(s.tasks[a].runtime + TicksOf(ops, a), USIZE_MAX)
    decreases |ops|
  {
    hide BooksOk, Step, Enabled, Fetched;
    if ops != [] {
      StepOk(s, ops[0]);
      StepAccounts(s, ops[0], a);
      RunAccounts(Step(s, ops[0]), ops[1..], a);
    }
  }

  // ----- the loops -----

  class PriorityScheduler {
    var queues: Queues
    var readyTasks: nat
    var tasks: Tasks

    ghost predicate InQueues()
      reads this
    {
      forall p, x :: 0 <= p < 8 && x in queues[p] ==> x in tasks && tasks[x].queued
    }

    /** The inner loop of `refresh_aging` for one level. */
    method RefreshLevel(level: nat, now: nat)
      requires level < 8 && InQueues()
      modifies this`queues, this`tasks
      ensures queues == Partial(old(queues), old(tasks), level, |old(queues[level])|, now)
      ensures SameBut(old(tasks), tasks)
      ensures forall x :: x in old(queues[level]) && x in tasks ==> tasks[x] == Refreshed(old(tasks[x]), now)
      ensures forall x :: x in tasks ==>
                tasks[x] == old(tasks[x]) || (x in old(queues[level]) && tasks[x] == Refreshed(old(tasks[x]), now))
    {
      hide Pick, Earned, Partial;
      ghost var q, t := queues, tasks;
      ghost var w := q[level];
      var count := |queues[level]|;
      PartialStart(q, t, level, now);
      var i := 0;
      while i < count
        invariant 0 <= i <= count == |w| && queues == Partial(q, t, level, i, now) && SameBut(t, tasks)
        invariant forall k :: 0 <= k < i ==> tasks[w[k]] == Refreshed(t[w[k]], now)
        invariant forall x :: x in tasks ==> tasks[x] == t[x] || (x in w && tasks[x] == Refreshed(t[x], now))
      {
        assert w[i] in w;
        PartialStep(q, t, level, i, now);
        var task := queues[level][0];
        EarnedSame(t[task], tasks[task].effective, now);
        EarnedBound(t[task], now);
        queues := queues[level := queues[level][1..]];
        tasks := tasks[task := Refreshed(tasks[task], now)];
        var newPriority := tasks[task].effective;
        queues := queues[newPriority := queues[newPriority] + [task]];
        i := i + 1;
      }
    }

    /** The nested loops of `refresh_aging`: the closed form, even where a demoted task is met twice. */
    method RefreshAging(now: nat)
      requires InQueues()
      modifies this`queues, this`tasks
      ensures queues == RefreshQueues(old(queues), old(tasks), now) && SameBut(old(tasks), tasks)
      ensures forall p, x :: 0 <= p < 8 && x in old(queues)[p] ==>
                x in tasks && tasks[x] == Refreshed(old(tasks)[x], now)
      ensures forall x :: x in tasks && !old(tasks)[x].queued ==> tasks[x] == old(tasks)[x]
    {
      hide Pick, Earned, Partial, Visited, Arrivals, RefreshQueues;
      ghost var q, t := queues, tasks;
      VisitedAll(q, t, now);
      var level := 8;
      while level > 0
        invariant 0 <= level <= 8 && queues == Visited(q, t, level, now) && SameBut(t, tasks) && InQueues()
        invariant forall x :: x in tasks ==> tasks[x] == t[x] || (t[x].queued && tasks[x] == Refreshed(t[x], now))
        invariant forall p, x :: level <= p < 8 && x in q[p] ==> x in t && tasks[x] == Refreshed(t[x], now)
      {
        level := level - 1;
        ghost var before := tasks;
        VisitLevel(q, t, level, now);
        ghost var v := queues;
        LevelHolds(q, t, level, now);
        RefreshLevel(level, now);
        PartialSame(v, t, before, level, now);
        VisitedMembers(q, t, level, now);
        forall x | x in tasks ensures Refreshed(before[x], now) == Refreshed(t[x], now) {
          EarnedSame(t[x], before[x].effective, now);
        }
      }
    }

    /** `TaskManager::add`. */
    method AddTask(id: Id, now: nat)
      requires id in tasks
      modifies this
      ensures State(queues, readyTasks, tasks, now) == Enqueue(old(State(queues, readyTasks, tasks, now)), id)
    {
      if tasks[id].queued { return; }
      tasks := tasks[id := OnEnqueue(tasks[id], now)];
      var priority := Min(tasks[id].effective, MAX_PRIORITY);
      queues := queues[priority := queues[priority] + [id]];
      readyTasks := readyTasks + 1;
    }

    /** `highest_ready_priority`. */
    method HighestReady() returns (r: Option<nat>)
      ensures r == Top(queues, 8)
    {
      var k := 8;
      while k > 0
        invariant 0 <= k <= 8 && Top(queues, 8) == Top(queues, k)
      {
        k := k - 1;
        if queues[k] != [] { return Some(k); }
      }
      r := None;
    }

    /** `refresh_aging` on a scheduler whose books are in order. */
    method Refresh(now: nat)
      requires BooksOk(State(queues, readyTasks, tasks, now))
      modifies this`queues, this`tasks
      ensures State(queues, readyTasks, tasks, now) == RefreshState(old(State(queues, readyTasks, tasks, now)))
    {
      hide Count, Size, RefreshQueues, Earned;
      ghost var s := State(queues, readyTasks, tasks, now);
      ghost var q, t := queues, tasks;
      forall p, x | 0 <= p < 8 && x in queues[p] ensures x in tasks && tasks[x].queued { InQueuesAt(s, p, x); }
      RefreshAging(now);
      forall x | x in t ensures tasks[x] == RefreshTasks(t, now)[x] {
        if t[x].queued {
          var p := QueuedAt(s, x);
          assert x in q[p];
        }
      }
      assert tasks == RefreshTasks(t, now);
    }

    /** `TaskManager::fetch`: the counter never disagrees with the queues, so nothing on the way panics. */
    method FetchTask(now: nat) returns (r: Option<Id>)
      requires BooksOk(State(queues, readyTasks, tasks, now))
      modifies this
      ensures State(queues, readyTasks, tasks, now) == Step(old(State(queues, readyTasks, tasks, now)), Fetch)
      ensures r == Fetched(old(State(queues, readyTasks, tasks, now))) && (r.None? <==> old(readyTasks) == 0)
    {
      hide Count, Size, RefreshQueues, Earned, BooksOk;
      if readyTasks == 0 { return None; }
      RefreshOk(State(queues, readyTasks, tasks, now));
      Refresh(now);
      DispatchOk(State(queues, readyTasks, tasks, now));
      var p := HighestReady();
      readyTasks := readyTasks - 1;
      var task := queues[p.value][0];
      queues := queues[p.value := queues[p.value][1..]];
      tasks := tasks[task := OnDispatch(tasks[task], now)];
      r := Some(task);
    }

    /** `should_preempt`: the running task is out of ticks or below the best waiting one. */
    method ShouldPreempt(current: Id, now: nat) returns (yes: bool)
      requires BooksOk(State(queues, readyTasks, tasks, now)) && current in tasks
      modifies this
      ensures State(queues, readyTasks, tasks, now) == Step(old(State(queues, readyTasks, tasks, now)), Preempt)
      ensures yes <==>
                && readyTasks > 0
                && (|| tasks[current].slice >= 2
                    || exists p :: tasks[current].effective < p < 8 && queues[p] != [])
    {
      hide Count, Size, RefreshQueues, Earned, BooksOk;
      if readyTasks == 0 { return false; }
      RefreshOk(State(queues, readyTasks, tasks, now));
      Refresh(now);
      DispatchOk(State(queues, readyTasks, tasks, now));
      var p := HighestReady();
      yes := tasks[current].slice >= TIME_SLICE_TICKS || p.value > tasks[current].effective;
    }
  }

  lemma InQueuesAt(s: State, p: nat, x: Id)
    requires BooksOk(s) && p < 8 && x in s.queues[p]
    ensures IsQueued(s.tasks, x)
  {
    hide Size;
    CountIn(s.queues, 0, x);
  }

  lemma QueuedAt(s: State, x: Id) returns (p: nat)
    requires BooksOk(s) && IsQueued(s.tasks, x)
    ensures p < 8 && x in s.queues[p]
  {
    hide Size;
    CountIn(s.queues, 0, x);
    p :| 0 <= p < 8 && x in s.queues[p];
  }

  lemma PartialSame(q: Queues, t0: Tasks, t1: Tasks, level: nat, now: nat)
    requires level < 8 && SameBut(t0, t1)
    ensures Partial(q, t1, level, |q[level]|, now) == Partial(q, t0, level, |q[level]|, now)
  {
    hide Pick;
    forall p: nat | p < 8 ensures Pick(q[level][..|q[level]|], t1, p, now) == Pick(q[level][..|q[level]|], t0, p, now) {
      PickSame(q[level][..|q[level]|], t0, t1, p, now);
    }
  }

  /** The level about to be visited still holds its own tasks. */
  lemma LevelHolds(q: Queues, tasks: Tasks, level: nat, now: nat)
    requires level < 8
    ensures forall x :: x in q[level] ==> x in Visited(q, tasks, level + 1, now)[level]
  {
    hide Pick, Arrivals;
  }

  /** Visiting brings in nobody new. */
  lemma VisitedMembers(q: Queues, tasks: Tasks, low: nat, now: nat)
    requires low <= 8
    ensures forall p, x :: 0 <= p < 8 && x in Visited(q, tasks, low, now)[p] ==> exists r :: 0 <= r < 8 && x in q[r]
  {
    hide Earned, Arrivals;
    forall p, x | 0 <= p < 8 && x in Visited(q, tasks, low, now)[p] ensures exists r :: 0 <= r < 8 && x in q[r] {
      ArrivalsEarned(q, tasks, p, low, now, x);
      InLast(if p < low then q[p] else Pick(q[p], tasks, p, now), Arrivals(q, tasks, p, low, now), x);
    }
  }

  lemma PartialStart(q: Queues, tasks: Tasks, level: nat, now: nat)
    requires level < 8
    ensures Partial(q, tasks, level, 0, now) == q
  {
    assert forall p :: 0 <= p < 8 ==> Partial(q, tasks, level, 0, now)[p] == q[p];
  }
}
