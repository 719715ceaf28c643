/**
 How often the Eisenberg-McGuire threads (user/src/bin/eisenberg.rs) overtake
 one that waits.  The leaving thread gives TURN to the next one whose flag is
 `Want`; a waiting thread whose flag is `In` at that moment, while it scans for
 conflicts, is passed over.  As long as that does not happen, a waiting thread
 is overtaken a bounded number of times; it can happen for ever.
 */
module EisenbergBypass {
  import opened Eisenberg

  // ----- the ring as seen from thread `i` -----

  /** Places from the one after `i` on: `i` itself comes last. */
  function Dist(n: nat, i: nat, x: nat): nat
    requires i < n && x < n
  {
    if x > i then x - i - 1 else x + n - i - 1
  }

  function Place(n: nat, i: nat, d: nat): (x: nat)
    requires i < n && d < n
    ensures x < n && Dist(n, i, x) == d
  {
    if i + 1 + d < n then i + 1 + d else i + 1 + d - n
  }

  /** A scan of the places `a`, `a + 1`, up to `end`, on the ring, meets `i`. */
  predicate Meets(n: nat, i: nat, a: nat, end: nat) { a <= i < end || a <= i + n < end }

  lemma RingIs(n: nat, a: nat)
    requires 0 < n && a < n + n
    ensures a % n == if a < n then a else a - n
  {
    if a >= n { assert a == n + (a - n); OnRing(n, a - n); }
  }

  // ----- who may get in before `i` -----

  /** `i` has its flag up and is not in. */
  predicate Waiting(s: State, i: nat) { Shape(s) && i < |s.pcs| && s.flags[i] != Out && !Past(s.pcs[i]) }

  /** From TURN one comes to `j` before `i`. */
  predicate Behind(s: State, i: nat, j: nat)
    requires i < |s.pcs| && j < |s.pcs| && s.turn < |s.pcs|
  {
    Dist(|s.pcs|, i, s.turn) <= Dist(|s.pcs|, i, j)
  }

  /** `j` may claim TURN before TURN moves back: it is through its scan, or will get through. */
  predicate CanGo(s: State, i: nat, j: nat)
    requires i < |s.pcs| && j < |s.pcs| && s.turn < |s.pcs|
  {
    match s.pcs[j]
    case SetIn => true
    case ClaimTurn => true
    case Conflict(_, conflict) => !conflict || Behind(s, i, j)
    case Scan(a, end) => !Meets(|s.pcs|, i, a, end) || Behind(s, i, j)
    case Idle => Behind(s, i, j)
    case SetWant => Behind(s, i, j)
    case LoadTurn => Behind(s, i, j)
    case SetOut => Behind(s, i, j)
    case _ => false
  }

  /** The distances of those threads. */
  ghost function Ready(s: State, i: nat): set<nat>
    requires i < |s.pcs| && s.turn < |s.pcs|
  {
    set d: nat | d < |s.pcs| - 1 && CanGo(s, i, Place(|s.pcs|, i, d))
  }

  // ----- a set of distances as a number, the nearest after `i` weighing most -----

  function Pow2(k: nat): (r: nat)
    ensures r > 0
  {
    if k == 0 then 1 else 2 * Pow2(k - 1)
  }

  ghost function Val(ds: set<nat>, d: nat, top: nat): nat
    decreases top - d
  {
    if d >= top then 0 else (if d in ds then Pow2(top - 1 - d) else 0) + Val(ds, d + 1, top)
  }

  lemma {:induction false} ValBound(ds: set<nat>, d: nat, top: nat)
    requires d <= top
    ensures Val(ds, d, top) < Pow2(top - d)
    decreases top - d
  {
    if d < top { ValBound(ds, d + 1, top); }
  }

  lemma {:induction false} ValMonotone(ds: set<nat>, more: set<nat>, d: nat, top: nat)
    requires ds <= more
    ensures Val(ds, d, top) <= Val(more, d, top)
    decreases top - d
  {
    if d < top { ValMonotone(ds, more, d + 1, top); }
  }

  /** Losing `e` outweighs whatever is gained after it. */
  lemma {:induction false} ValDrops(before: set<nat>, after: set<nat>, e: nat, d: nat, top: nat)
    requires d <= e < top && e in before && e !in after && forall x :: d <= x < e && x in after ==> x in before
    ensures Val(after, d, top) < Val(before, d, top)
    decreases e - d
  {
    if d == e { ValBound(after, d + 1, top); } else { ValDrops(before, after, e, d + 1, top); }
  }

  // ----- passing over -----

  /** The scans of a thread stay on the ring. */
  ghost predicate Rings(s: State) {
    forall h :: 0 <= h < |s.pcs| ==>
      match s.pcs[h]
      case Scan(_, end) => end == h || end == h + |s.pcs|
      case ExitScan(j) => h < j <= h + |s.pcs|
      case _ => true
  }

  /** The leaving thread `h` has left `i` behind in its search for the next one. */
  predicate PassedOver(s: State, i: nat, h: nat)
    requires i < |s.pcs| && h < |s.pcs|
  {
    h != i &&
    match s.pcs[h]
    case ExitScan(j) => !Meets(|s.pcs|, i, j, h + |s.pcs|)
    case GiveTurn(next) => next < |s.pcs| && Dist(|s.pcs|, i, next) <= Dist(|s.pcs|, i, h)
    case _ => false
  }

  ghost predicate Skipped(s: State, i: nat)
    requires i < |s.pcs|
  {
    exists h :: 0 <= h < |s.pcs| && PassedOver(s, i, h)
  }

  /** The next step of `id` looks at the flag of `i` and passes over it, though it is up. */
  predicate Skips(s: State, i: nat, id: nat)
    requires Shape(s) && i < |s.pcs| && id < |s.pcs|
  {
    && id != i && s.pcs[id].ExitScan? && s.pcs[id].j < id + |s.pcs| && s.pcs[id].j % |s.pcs| == i
    && s.flags[i] != Want
  }

  /** The next step of `id` takes TURN: it overtakes `i`. */
  predicate Enters(s: State, i: nat, id: nat)
    requires id < |s.pcs|
  {
    id != i && s.pcs[id] == ClaimTurn
  }

  /** At most so many threads come before `i`, unless it is passed over. */
  ghost function Debt(s: State, i: nat): nat
    requires i < |s.pcs| && s.turn < |s.pcs|
  {
    if Skipped(s, i) then Pow2(|s.pcs| - 1) else Val(Ready(s, i), 0, |s.pcs| - 1)
  }

  function Bit(b: bool): nat { if b then 1 else 0 }

  lemma DebtBound(s: State, i: nat)
    requires i < |s.pcs| && s.turn < |s.pcs|
    ensures Debt(s, i) <= Pow2(|s.pcs| - 1)
  {
    ValBound(Ready(s, i), 0, |s.pcs| - 1);
  }

  lemma StepRings(s: State, id: nat)
    requires Shape(s) && Rings(s) && id < |s.pcs|
    ensures Rings(Step(s, id))
  {
  }

  /** A step that leaves TURN alone lets nobody new get before `i`. */
  lemma QuietStep(s: State, i: nat, id: nat)
    requires Shape(s) && TurnOk(s) && Rings(s) && Waiting(s, i) && id < |s.pcs| && id != i
    requires !s.pcs[id].ClaimTurn? && !s.pcs[id].GiveTurn?
    ensures Step(s, id).turn == s.turn < |s.pcs| && |Step(s, id).pcs| == |s.pcs|
    ensures CanGo(Step(s, id), i, id) ==> CanGo(s, i, id)
  {
    if s.pcs[id].Scan? && s.pcs[id].i < s.pcs[id].end { RingIs(|s.pcs|, s.pcs[id].i); }
  }

  lemma QuietSearch(s: State, i: nat, id: nat)
    requires Shape(s) && Rings(s) && Waiting(s, i) && id < |s.pcs| && |Step(s, id).pcs| == |s.pcs|
    requires !s.pcs[id].GiveTurn?
    ensures PassedOver(Step(s, id), i, id) ==> PassedOver(s, i, id) || Skips(s, i, id)
  {
    if s.pcs[id].ExitScan? && s.pcs[id].j < id + |s.pcs| { RingIs(|s.pcs|, s.pcs[id].j); }
  }

  lemma ReadyFewer(s: State, s1: State, i: nat, id: nat)
    requires |s1.pcs| == |s.pcs| && i < |s.pcs| && s.turn < |s.pcs| && s1.turn == s.turn && id < |s.pcs|
    requires forall j :: 0 <= j < |s.pcs| && j != id ==> s1.pcs[j] == s.pcs[j]
    requires id == i || (CanGo(s1, i, id) ==> CanGo(s, i, id))
    ensures Ready(s1, i) <= Ready(s, i)
  {
    forall d | d in Ready(s1, i) ensures d in Ready(s, i) {
      var j := Place(|s.pcs|, i, d);
      assert CanGo(s1, i, j) && j != i;
    }
  }

  /** Others than the thread past the conflict scan are not leaving. */
  lemma NobodySkipped(s: State, i: nat, id: nat)
    requires i < |s.pcs| && id < |s.pcs| && !s.pcs[id].ExitScan? && !s.pcs[id].GiveTurn?
    requires forall j :: 0 <= j < |s.pcs| && j != id ==> !Past(s.pcs[j])
    ensures !Skipped(s, i)
  {
  }

  lemma OthersNotPast(s: State, id: nat)
    requires Inv(s) && id < |s.pcs| && Past(s.pcs[id])
    ensures forall j :: 0 <= j < |s.pcs| && j != id ==> !Past(s.pcs[j])
  {
    hide Inv, Past;
    Exclusive(s);
  }

  /** TURN is claimed by `id`: one entry is paid for, though threads after it may become ready. */
  lemma ClaimStep(s: State, i: nat, id: nat)
    requires Inv(s) && Waiting(s, i) && id < |s.pcs| && Enters(s, i, id)
    ensures s.turn < |s.pcs| && Step(s, id).turn < |s.pcs| && |Step(s, id).pcs| == |s.pcs|
    ensures Debt(Step(s, id), i) < Debt(s, i)
  {
    OthersNotPast(s, id);
    hide Flags, OneWay, GuardOk;
    var n, s1 := |s.pcs|, Step(s, id);
    var e := Dist(n, i, id);
    NobodySkipped(s, i, id);
    NobodySkipped(s1, i, id);
    hide Skipped;
    assert Place(n, i, e) == id;
    assert e in Ready(s, i) && e !in Ready(s1, i);
    forall d | 0 <= d < e && d in Ready(s1, i) ensures d in Ready(s, i) {
      var j := Place(n, i, d);
      assert s1.pcs[j] == s.pcs[j];
    }
    ValDrops(Ready(s, i), Ready(s1, i), e, 0, n - 1);
  }

  /** TURN is given away: nobody new becomes ready unless `i` was passed over. */
  lemma GiveStep(s: State, i: nat, id: nat)
    requires Inv(s) && Waiting(s, i) && id < |s.pcs| && s.pcs[id].GiveTurn?
    ensures s.turn < |s.pcs| && Step(s, id).turn < |s.pcs| && |Step(s, id).pcs| == |s.pcs|
    ensures Debt(Step(s, id), i) <= Debt(s, i)
  {
    OthersNotPast(s, id);
    hide Flags, OneWay, GuardOk;
    var n, s1 := |s.pcs|, Step(s, id);
    NobodySkipped(s1, i, id);
    DebtBound(s1, i);
    if !Skipped(s, i) {
      assert !PassedOver(s, i, id);
      forall d | d in Ready(s1, i) ensures d in Ready(s, i) {
        var j := Place(n, i, d);
        assert j != id ==> s1.pcs[j] == s.pcs[j];
      }
      ValMonotone(Ready(s1, i), Ready(s, i), 0, n - 1);
    }
  }

  /** Every entry is paid for, by what was owed or by `i` being passed over. */
  lemma StepDebt(s: State, i: nat, id: nat)
    requires Inv(s) && Rings(s) && Waiting(s, i) && id < |s.pcs|
    ensures s.turn < |s.pcs| && Step(s, id).turn < |s.pcs| && |Step(s, id).pcs| == |s.pcs|
    ensures Debt(Step(s, id), i) + Bit(Enters(s, i, id)) <= Debt(s, i) + Bit(Skips(s, i, id)) * Pow2(|s.pcs| - 1)
  {
    var s1 := Step(s, id);
    StepShape(s, id);
    if Enters(s, i, id) {
      ClaimStep(s, i, id);
    } else if s.pcs[id].GiveTurn? {
      GiveStep(s, i, id);
    } else {
      RestStep(s, i, id);
    }
  }

  lemma RestStep(s: State, i: nat, id: nat)
    requires Inv(s) && Rings(s) && Waiting(s, i) && id < |s.pcs| && !Enters(s, i, id) && !s.pcs[id].GiveTurn?
    ensures s.turn < |s.pcs| && Step(s, id).turn < |s.pcs| && |Step(s, id).pcs| == |s.pcs|
    ensures Debt(Step(s, id), i) <= Debt(s, i) + Bit(Skips(s, i, id)) * Pow2(|s.pcs| - 1)
  {
    var s1 := Step(s, id);
    StepShape(s, id);
    QuietSearch(s, i, id);
    if id != i { QuietStep(s, i, id); } else { assert s1.turn == s.turn; }
    hide Inv, Rings, Step, PassedOver;
    DebtBound(s1, i);
    if !Skipped(s, i) && !Skips(s, i, id) {
      forall h | 0 <= h < |s.pcs| && PassedOver(s1, i, h) ensures PassedOver(s, i, h) {
        if h != id || h == i { SamePassed(s, s1, i, h); }
      }
      ReadyFewer(s, s1, i, id);
      ValMonotone(Ready(s1, i), Ready(s, i), 0, |s.pcs| - 1);
    }
  }

  lemma SamePassed(s: State, s1: State, i: nat, h: nat)
    requires |s1.pcs| == |s.pcs| && i < |s.pcs| && h < |s.pcs| && (h == i || s1.pcs[h] == s.pcs[h])
    ensures PassedOver(s1, i, h) == PassedOver(s, i, h)
  {
  }

  // ----- whole runs -----

  predicate Schedule(n: nat, schedule: seq<nat>) { forall k :: 0 <= k < |schedule| ==> schedule[k] < n }

  /** `i` waits in every state of the run. */
  ghost predicate WaitsThrough(s: State, i: nat, schedule: seq<nat>)
    requires Shape(s) && Schedule(|s.pcs|, schedule)
    decreases |schedule|
  {
    if schedule == [] then Waiting(s, i)
    else StepShape(s, schedule[0]); Waiting(s, i) && WaitsThrough(Step(s, schedule[0]), i, schedule[1..])
  }

  /** How often another thread takes TURN during the run. */
  ghost function Entries(s: State, i: nat, schedule: seq<nat>): nat
    requires Shape(s) && Schedule(|s.pcs|, schedule)
    decreases |schedule|
  {
    if schedule == [] then 0
    else StepShape(s, schedule[0]); Bit(Enters(s, i, schedule[0])) + Entries(Step(s, schedule[0]), i, schedule[1..])
  }

  /** How often `i` is passed over. */
  ghost function SkipCount(s: State, i: nat, schedule: seq<nat>): nat
    requires Shape(s) && Schedule(|s.pcs|, schedule) && i < |s.pcs|
    decreases |schedule|
  {
    if schedule == [] then 0
    else StepShape(s, schedule[0]); Bit(Skips(s, i, schedule[0])) + SkipCount(Step(s, schedule[0]), i, schedule[1..])
  }

  lemma {:induction false} RunDebt(s: State, i: nat, schedule: seq<nat>)
    requires Inv(s) && Rings(s) && Schedule(|s.pcs|, schedule) && WaitsThrough(s, i, schedule)
    ensures s.turn < |s.pcs|
    ensures Entries(s, i, schedule) <= Debt(s, i) + SkipCount(s, i, schedule) * Pow2(|s.pcs| - 1)
    decreases |schedule|
  {
    hide Step, Flags, OneWay, TurnOk, GuardOk, Rings, Debt, Waiting, Skips, Enters;
    assert Waiting(s, i);
    assert Shape(s) && i < |s.pcs| by { WaitingShape(s, i); }
    if schedule == [] {
      TurnInside(s);
    } else {
      var id := schedule[0];
      StepDebt(s, i, id);
      StepInv(s, id);
      StepRings(s, id);
      RunDebt(Step(s, id), i, schedule[1..]);
      var more := SkipCount(Step(s, id), i, schedule[1..]);
      assert (Bit(Skips(s, i, id)) + more) * Pow2(|s.pcs| - 1) ==
        Bit(Skips(s, i, id)) * Pow2(|s.pcs| - 1) + more * Pow2(|s.pcs| - 1);
    }
  }

  lemma WaitingShape(s: State, i: nat)
    requires Waiting(s, i)
    ensures Shape(s) && i < |s.pcs|
  {
  }

  lemma TurnInside(s: State)
    requires Inv(s) && s.pcs != []
    ensures s.turn < |s.pcs|
  {
  }

  /** The state that `n` threads reach by a schedule. */
  ghost function Reached(n: nat, schedule: seq<nat>): (s: State)
    requires Schedule(n, schedule)
    ensures Shape(s) && Inv(s) && Rings(s) && |s.pcs| == n
  {
    InitInv(n);
    RunInv(Init(n), schedule);
    RunRings(Init(n), schedule);
    Run(Init(n), schedule)
  }

  /** Bounded bypass: in any run, from any reachable state, a thread that waits is overtaken at most 2 to the power n -
      1 times for each time it is passed over, and as often once more. */
  lemma BoundedBypass(n: nat, schedule: seq<nat>, i: nat, more: seq<nat>)
    requires Schedule(n, schedule) && Schedule(n, more) && WaitsThrough(Reached(n, schedule), i, more)
    ensures i < n && Entries(Reached(n, schedule), i, more) <=
                       (1 + SkipCount(Reached(n, schedule), i, more)) * Pow2(n - 1)
  {
    var s := Reached(n, schedule);
    hide Reached, Inv, Rings, Debt, Pow2, Entries, SkipCount;
    RunDebt(s, i, more);
    DebtBound(s, i);
    OnceMore(SkipCount(s, i, more), Pow2(n - 1));
  }

  lemma OnceMore(a: nat, b: nat)
    ensures (1 + a) * b == b + a * b
  {
  }

  lemma {:induction false} RunRings(s: State, schedule: seq<nat>)
    requires Shape(s) && Rings(s) && Schedule(|s.pcs|, schedule)
    ensures Rings(Run(s, schedule))
    decreases |schedule|
  {
    hide Step, Rings;
    if schedule != [] {
      StepShape(s, schedule[0]);
      StepRings(s, schedule[0]);
      RunRings(Step(s, schedule[0]), schedule[1..]);
    }
  }

  // ----- the other way round: whoever passes `i` over has overtaken it -----

  /** `h` is in the section, or leaving it, and has yet to come to `i` in its search. */
  predicate MaySkip(s: State, i: nat, h: nat)
    requires h < |s.pcs|
  {
    h != i &&
    match s.pcs[h]
    case GuardEnter => true
    case GuardClaim(_) => true
    case GuardExit => true
    case ExitScan(j) => Meets(|s.pcs|, i, j, h + |s.pcs|)
    case _ => false
  }

  ghost predicate Open(s: State, i: nat) { exists h :: 0 <= h < |s.pcs| && MaySkip(s, i, h) }

  lemma StepOpen(s: State, i: nat, id: nat)
    requires Inv(s) && Rings(s) && Waiting(s, i) && id < |s.pcs|
    ensures Bit(Skips(s, i, id)) + Bit(Open(Step(s, id), i)) <= Bit(Open(s, i)) + Bit(Enters(s, i, id))
  {
    var s1 := Step(s, id);
    StepShape(s, id);
    SkipCloses(s, i, id);
    if Skips(s, i, id) {
      OthersNotPast(s, id);
      hide Step, Inv, Rings;
      assert forall h :: 0 <= h < |s.pcs| && h != id ==> !MaySkip(s1, i, h);
    } else if !Enters(s, i, id) && Open(s1, i) {
      hide Step, Inv, Rings, Skips, Enters;
      var h :| 0 <= h < |s.pcs| && MaySkip(s1, i, h);
      assert MaySkip(s, i, h);
    }
  }

  /** Passing `i` over ends the search for it; without entering, no search for it begins. */
  lemma SkipCloses(s: State, i: nat, id: nat)
    requires Shape(s) && Rings(s) && Waiting(s, i) && id < |s.pcs|
    ensures |Step(s, id).pcs| == |s.pcs|
    ensures Skips(s, i, id) ==> MaySkip(s, i, id) && !MaySkip(Step(s, id), i, id)
    ensures MaySkip(Step(s, id), i, id) ==> MaySkip(s, i, id) || Enters(s, i, id)
  {
    if s.pcs[id].ExitScan? && s.pcs[id].j < id + |s.pcs| { RingIs(|s.pcs|, s.pcs[id].j); }
  }

  lemma {:induction false} RunOpen(s: State, i: nat, schedule: seq<nat>)
    requires Inv(s) && Rings(s) && Shape(s) && Schedule(|s.pcs|, schedule) && WaitsThrough(s, i, schedule)
    ensures i < |s.pcs| && SkipCount(s, i, schedule) <= Entries(s, i, schedule) + Bit(Open(s, i))
    decreases |schedule|
  {
    hide Step, Inv, Rings, Open, Skips, Enters;
    if schedule != [] {
      StepOpen(s, i, schedule[0]);
      StepInv(s, schedule[0]);
      StepRings(s, schedule[0]);
      RunOpen(Step(s, schedule[0]), i, schedule[1..]);
    }
  }

  /** Between two times that `i` is passed over, it is overtaken.  With `BoundedBypass`: over any family of runs, how
      often a thread is overtaken is bounded iff how often it is passed over is. */
  lemma SkipsAreEntries(n: nat, schedule: seq<nat>, i: nat, more: seq<nat>)
    requires Schedule(n, schedule) && Schedule(n, more) && WaitsThrough(Reached(n, schedule), i, more)
    ensures i < n && SkipCount(Reached(n, schedule), i, more) <= Entries(Reached(n, schedule), i, more) + 1
  {
    var s := Reached(n, schedule);
    hide Reached, Inv, Rings, Open;
    RunOpen(s, i, more);
  }

  // ----- passed over for ever -----

  /** From `s` to `t` with `i` waiting all the time and overtaken `e` times. */
  ghost predicate Lap(s: State, i: nat, schedule: seq<nat>, t: State, e: nat) {
    && Shape(s) && Schedule(|s.pcs|, schedule) && WaitsThrough(s, i, schedule)
    && Run(s, schedule) == t && Entries(s, i, schedule) == e
  }

  ghost predicate Laps(s: State, i: nat, t: State, e: nat) { exists schedule :: Lap(s, i, schedule, t, e) }

  lemma {:induction false} LapConcat(s: State, i: nat, a: seq<nat>, t: State, b: seq<nat>, u: State, e: nat, f: nat)
    requires Lap(s, i, a, t, e) && Lap(t, i, b, u, f) && |t.pcs| == |s.pcs|
    ensures Lap(s, i, a + b, u, e + f)
    decreases |a|
  {
    hide Step, Waiting, Enters;
    if a == [] {
      assert a + b == b;
    } else {
      StepShape(s, a[0]);
      var s1 := Step(s, a[0]);
      assert (a + b)[0] == a[0] && (a + b)[1..] == a[1..] + b;
      LapConcat(s1, i, a[1..], t, b, u, e - Bit(Enters(s, i, a[0])), f);
    }
  }

  /** One more step. */
  lemma Go(s: State, i: nat, t: State, e: nat, id: nat) returns (u: State)
    requires Laps(s, i, t, e) && |t.pcs| == |s.pcs| && Waiting(t, i) && id < |t.pcs| && Waiting(Step(t, id), i)
    ensures u == Step(t, id) && Laps(s, i, u, e + Bit(Enters(t, i, id))) && |u.pcs| == |s.pcs|
  {
    hide Step, Waiting, Enters;
    assert Shape(t) by { WaitingShape(t, i); }
    StepShape(t, id);
    u := Step(t, id);
    var a :| Lap(s, i, a, t, e);
    var one := [id];
    assert one[0] == id && one[1..] == [];
    assert Run(t, one) == Run(u, one[1..]) == u;
    assert WaitsThrough(u, i, one[1..]) && Entries(u, i, one[1..]) == 0;
    assert Lap(t, i, one, u, Bit(Enters(t, i, id)));
    LapConcat(s, i, a, t, one, u, e, Bit(Enters(t, i, id)));
  }

  lemma LapsTrans(s: State, i: nat, t: State, u: State, e: nat, f: nat)
    requires Laps(s, i, t, e) && Laps(t, i, u, f) && |t.pcs| == |s.pcs|
    ensures Laps(s, i, u, e + f)
  {
    var a :| Lap(s, i, a, t, e);
    var b :| Lap(t, i, b, u, f);
    LapConcat(s, i, a, t, b, u, e, f);
  }

  lemma Here(s: State, i: nat)
    requires Waiting(s, i)
    ensures Laps(s, i, s, 0)
  {
    assert Lap(s, i, [], s, 0);
  }

  /** Two threads: 0 is about to read TURN, which is 1, and 1 is not interested. */
  function Start(): State { State(1, [Want, Out], [LoadTurn, Idle], 0) }

  /** 0 gets through its scan and stops before the claim. */
  lemma Scanned()
    ensures Laps(Start(), 0, State(1, [Want, Out], [SetIn, Idle], 0), 0)
  {
    hide Laps;
    Here(Start(), 0);
    var s := Go(Start(), 0, Start(), 0, 0);
    assert s.pcs[0] == Scan(1, 2);
    s := Go(Start(), 0, s, 0, 0);
    assert s.pcs[0] == Scan(2, 2);
    s := Go(Start(), 0, s, 0, 0);
    assert s == State(1, [Want, Out], [SetIn, Idle], 0);
  }

  /** 1 finds TURN its own and nobody `In`, and takes the section. */
  lemma Taken()
    ensures Laps(State(1, [Want, Out], [SetIn, Idle], 0), 0, State(1, [Want, In], [SetIn, GuardEnter], 0), 1)
  {
    hide Laps;
    var a := State(1, [Want, Out], [SetIn, Idle], 0);
    Here(a, 0);
    var s := Go(a, 0, a, 0, 1);
    s := Go(a, 0, s, 0, 1);
    s := Go(a, 0, s, 0, 1);
    assert s.pcs[1] == Scan(1, 1);
    s := Go(a, 0, s, 0, 1);
    s := Go(a, 0, s, 0, 1);
    s := Go(a, 0, s, 0, 1);
    assert s.pcs[1] == Conflict(1, false);
    s := Go(a, 0, s, 0, 1);
    s := Go(a, 0, s, 0, 1);
    assert s.pcs[1] == ClaimTurn;
    s := Go(a, 0, s, 0, 1);
    assert s == State(1, [Want, In], [SetIn, GuardEnter], 0);
  }

  /** 1 comes to its search. */
  lemma Leaving()
    ensures Laps(State(1, [Want, In], [SetIn, GuardEnter], 0), 0, State(1, [Want, In], [SetIn, ExitScan(2)], 0), 0)
  {
    hide Laps;
    var a := State(1, [Want, In], [SetIn, GuardEnter], 0);
    Here(a, 0);
    var s := Go(a, 0, a, 0, 1);
    s := Go(a, 0, s, 0, 1);
    s := Go(a, 0, s, 0, 1);
    s := Go(a, 0, s, 0, 1);
    s := Go(a, 0, s, 0, 1);
    assert s == State(1, [Want, In], [SetIn, ExitScan(2)], 0);
  }

  /** 0 claims; 1 sees `In`, passes 0 over and keeps TURN. */
  lemma Passed()
    ensures Laps(State(1, [Want, In], [SetIn, ExitScan(2)], 0), 0,
                 State(1, [In, In], [Conflict(0, false), SetOut], 0), 0)
  {
    hide Laps;
    var a := State(1, [Want, In], [SetIn, ExitScan(2)], 0);
    Here(a, 0);
    var s := Go(a, 0, a, 0, 0);
    s := Go(a, 0, s, 0, 1);
    assert s.pcs[1] == ExitScan(3);
    s := Go(a, 0, s, 0, 1);
    s := Go(a, 0, s, 0, 1);
    assert s == State(1, [In, In], [Conflict(0, false), SetOut], 0);
  }

  /** 0 sees the conflict and goes back; 1 is done. */
  lemma Back()
    ensures Laps(State(1, [In, In], [Conflict(0, false), SetOut], 0), 0, Start(), 0)
  {
    hide Laps;
    var a := State(1, [In, In], [Conflict(0, false), SetOut], 0);
    Here(a, 0);
    var s := Go(a, 0, a, 0, 0);
    s := Go(a, 0, s, 0, 0);
    assert s.pcs[0] == Conflict(2, true);
    s := Go(a, 0, s, 0, 0);
    s := Go(a, 0, s, 0, 0);
    s := Go(a, 0, s, 0, 1);
    assert s == Start();
  }

  /** Round and round: everything is as before, and 0 has been overtaken once more. */
  lemma {:induction false} Rounds(k: nat)
    ensures Laps(Start(), 0, Start(), k)
  {
    hide Laps;
    if k == 0 {
      Here(Start(), 0);
    } else {
      Rounds(k - 1);
      Scanned();
      Taken();
      Leaving();
      Passed();
      Back();
      var a, b := State(1, [Want, Out], [SetIn, Idle], 0), State(1, [Want, In], [SetIn, GuardEnter], 0);
      var c, d := State(1, [Want, In], [SetIn, ExitScan(2)], 0), State(1, [In, In], [Conflict(0, false), SetOut], 0);
      LapsTrans(Start(), 0, Start(), a, k - 1, 0);
      LapsTrans(Start(), 0, a, b, k - 1, 1);
      LapsTrans(Start(), 0, b, c, k, 0);
      LapsTrans(Start(), 0, c, d, k, 0);
      LapsTrans(Start(), 0, d, Start(), k, 0);
    }
  }

  lemma Onward(s: State, t: State, id: nat) returns (u: State)
    requires Reaches(s, t) && Shape(t) && id < |t.pcs|
    ensures u == Step(t, id) && Reaches(s, u)
  {
    hide Step, Reaches;
    u := Step(t, id);
    ReachStep(t, id);
    ReachTrans(s, t, u);
  }

  /** 1 alone takes the section. */
  lemma FirstTaken()
    ensures Reaches(Init(2), State(1, [Out, In], [Idle, GuardEnter], 0))
  {
    hide Reaches;
    var a := State(0, [Out, Out], [Idle, Idle], 0);
    assert Init(2) == a;
    ReachSelf(a);
    var s := Onward(a, a, 1);
    s := Onward(a, s, 1);
    s := Onward(a, s, 1);
    assert s.pcs[1] == Scan(0, 1);
    s := Onward(a, s, 1);
    s := Onward(a, s, 1);
    s := Onward(a, s, 1);
    s := Onward(a, s, 1);
    assert s.pcs[1] == Conflict(1, false);
    s := Onward(a, s, 1);
    s := Onward(a, s, 1);
    s := Onward(a, s, 1);
    assert s == State(1, [Out, In], [Idle, GuardEnter], 0);
  }

  /** 1 leaves and keeps TURN. */
  lemma FirstLeft()
    ensures Reaches(State(1, [Out, In], [Idle, GuardEnter], 0), State(1, [Out, Out], [Idle, Idle], 0))
  {
    hide Reaches;
    var a := State(1, [Out, In], [Idle, GuardEnter], 0);
    ReachSelf(a);
    var s := Onward(a, a, 1);
    s := Onward(a, s, 1);
    s := Onward(a, s, 1);
    s := Onward(a, s, 1);
    s := Onward(a, s, 1);
    assert s == State(1, [Out, In], [Idle, ExitScan(2)], 0);
    s := Onward(a, s, 1);
    s := Onward(a, s, 1);
    s := Onward(a, s, 1);
    s := Onward(a, s, 1);
    assert s == State(1, [Out, Out], [Idle, Idle], 0);
  }

  /** Then 0 comes. */
  lemma StartReached()
    ensures Reaches(Init(2), Start())
  {
    hide Reaches;
    FirstTaken();
    FirstLeft();
    var a := State(1, [Out, Out], [Idle, Idle], 0);
    ReachTrans(Init(2), State(1, [Out, In], [Idle, GuardEnter], 0), a);
    var s := Onward(Init(2), a, 0);
    s := Onward(Init(2), s, 0);
    assert s == Start();
  }

  /** There is no bound of its own: of two threads, one can be overtaken any number of times while it waits. */
  lemma OvertakenForEver(k: nat) returns (schedule: seq<nat>, more: seq<nat>)
    ensures Schedule(2, schedule) && Schedule(2, more) && WaitsThrough(Reached(2, schedule), 0, more)
    ensures Entries(Reached(2, schedule), 0, more) == k
  {
    StartReached();
    Rounds(k);
    schedule :| Leads(Init(2), schedule, Start());
    more :| Lap(Start(), 0, more, Start(), k);
  }
}
