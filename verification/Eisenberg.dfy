/**
 The Eisenberg-McGuire algorithm (user/src/bin/eisenberg.rs) for any number
 of threads, every load and store of FLAG, TURN and GUARD a step of its own.
 */
module Eisenberg {
  datatype Flag = Out | Want | In

  /** Where a thread is: what its next load or store will be. */
  datatype Pc =
    | Idle
    | SetWant
    | LoadTurn
    | Scan(i: nat, end: nat)
    | SetIn
    | Conflict(k: nat, conflict: bool)
    | ClaimTurn
    | GuardEnter
    | GuardClaim(left: nat)
    | GuardExit
    | ExitScan(j: nat)
    | GiveTurn(next: nat)
    | SetOut

  datatype State = State(turn: nat, flags: seq<Flag>, pcs: seq<Pc>, guard: int)

  function Init(n: nat): State { State(0, seq(n, _ => Out), seq(n, _ => Idle), 0) }

  /** One step of thread `id` among `n`. */
  function Step(s: State, id: nat): State
    requires Shape(s) && id < |s.pcs|
  {
    var n := |s.pcs|;
    match s.pcs[id]
    case Idle => Goto(s, id, SetWant)
    case SetWant => Store(s, id, Want, LoadTurn)
    case LoadTurn => Goto(s, id, Scan(s.turn, if id < s.turn then id + n else id))
    case Scan(i, end) =>
      if i >= end then Goto(s, id, SetIn)
      else if s.flags[i % n] != Out then Goto(s, id, LoadTurn)
      else Goto(s, id, Scan(i + 1, end))
    case SetIn => Store(s, id, In, Conflict(0, false))
    case Conflict(k, conflict) =>
      if k >= n then Goto(s, id, if conflict then SetWant else ClaimTurn)
      else Goto(s, id, Conflict(k + 1, conflict || (k != id && s.flags[k] == In)))
    case ClaimTurn => Goto(s.(turn := id), id, GuardEnter)
    case GuardEnter => Goto(s.(guard := s.guard + 1), id, GuardClaim(3))
    case GuardClaim(left) => Goto(s, id, if left <= 1 then GuardExit else GuardClaim(left - 1))
    case GuardExit => Goto(s.(guard := s.guard - 1), id, ExitScan(id + 1))
    case ExitScan(j) =>
      if j >= id + n then Goto(s, id, GiveTurn(id))
      else if s.flags[j % n] == Want then Goto(s, id, GiveTurn(j % n))
      else Goto(s, id, ExitScan(j + 1))
    case GiveTurn(next) => Goto(s.(turn := next), id, SetOut)
    case SetOut => Store(s, id, Out, Idle)
  }

  function Goto(s: State, id: nat, pc: Pc): State
    requires id < |s.pcs|
  {
    s.(pcs := s.pcs[id := pc])
  }

  function Store(s: State, id: nat, f: Flag, pc: Pc): State
    requires Shape(s) && id < |s.pcs|
  {
    s.(flags := s.flags[id := f], pcs := s.pcs[id := pc])
  }

  predicate Shape(s: State) { |s.flags| == |s.pcs| }

  // ----- what is claimed -----

  /** Past the conflict scan: `FLAG[id]` is `In` and stays so until the thread leaves. */
  predicate Past(pc: Pc) {
    pc.ClaimTurn? || pc.GuardEnter? || pc.GuardClaim? || pc.GuardExit? || pc.ExitScan? || pc.GiveTurn? || pc.SetOut?
  }

  /** Between `critical_test_enter` and `critical_test_exit`. */
  predicate Guarded(pc: Pc) { pc.GuardClaim? || pc.GuardExit? }

  /** Holding the section with TURN claimed and not yet given away. */
  predicate HasTurn(pc: Pc) { Guarded(pc) || pc.GuardEnter? || pc.ExitScan? || pc.GiveTurn? }

  /** The three GUARD assertions at the thread's next step. */
  predicate AssertionsHold(s: State, id: nat)
    requires id < |s.pcs|
  {
    match s.pcs[id]
    case GuardEnter => s.guard == 0
    case GuardClaim(_) => s.guard == 1
    case GuardExit => s.guard == 1
    case _ => true
  }

  ghost predicate MutualExclusion(s: State) {
    forall i, j :: 0 <= i < j < |s.pcs| ==> !(Past(s.pcs[i]) && Past(s.pcs[j]))
  }

  // ----- the invariant -----

  /** A thread's flag as its position determines it. */
  predicate FlagOk(pc: Pc, f: Flag) {
    match pc
    case Idle => f == Out
    case SetWant => f != Want
    case LoadTurn => f == Want
    case Scan(_, _) => f == Want
    case SetIn => f == Want
    case _ => f == In
  }

  /** `i` has seen, since it set its flag to `In`, that `j`'s was not. */
  predicate Checked(s: State, i: nat, j: nat)
    requires i < |s.pcs|
  {
    Past(s.pcs[i]) || (s.pcs[i].Conflict? && !s.pcs[i].conflict && j < s.pcs[i].k)
  }

  ghost predicate Flags(s: State) { Shape(s) && forall i :: 0 <= i < |s.pcs| ==> FlagOk(s.pcs[i], s.flags[i]) }

  ghost predicate OneWay(s: State) {
    forall i, j :: 0 <= i < |s.pcs| && 0 <= j < |s.pcs| && i != j ==> !(Checked(s, i, j) && Checked(s, j, i))
  }

  ghost predicate TurnOk(s: State) {
    && (s.pcs != [] ==> s.turn < |s.pcs|)
    && forall i :: 0 <= i < |s.pcs| ==>
        (HasTurn(s.pcs[i]) ==> s.turn == i) && (s.pcs[i].GiveTurn? ==> s.pcs[i].next < |s.pcs|)
  }

  ghost predicate GuardOk(s: State) {
    && (forall i :: 0 <= i < |s.pcs| && Guarded(s.pcs[i]) ==> s.guard == 1)
    && (s.guard == 0 || (s.guard == 1 && exists i :: 0 <= i < |s.pcs| && Guarded(s.pcs[i])))
  }

  ghost predicate Inv(s: State) { Flags(s) && OneWay(s) && TurnOk(s) && GuardOk(s) }

  lemma InitInv(n: nat)
    ensures Inv(Init(n))
  {
  }

  /** Two threads past the scan would each have checked the other. */
  lemma Exclusive(s: State)
    requires Inv(s)
    ensures MutualExclusion(s)
  {
    forall i, j | 0 <= i < j < |s.pcs| ensures !(Past(s.pcs[i]) && Past(s.pcs[j])) {
      assert !(Checked(s, i, j) && Checked(s, j, i));
    }
  }

  lemma StepShape(s: State, id: nat)
    requires Shape(s) && id < |s.pcs|
    ensures Shape(Step(s, id)) && |Step(s, id).pcs| == |s.pcs|
    ensures forall i :: 0 <= i < |s.pcs| && i != id ==>
              Step(s, id).pcs[i] == s.pcs[i] && Step(s, id).flags[i] == s.flags[i]
  {
  }

  lemma StepFlags(s: State, id: nat)
    requires Flags(s) && id < |s.pcs|
    ensures Flags(Step(s, id))
  {
  }

  /** When `id` newly counts `j` as checked, `j` is not `In`, so it has checked nobody. */
  lemma StepOneWay(s: State, id: nat)
    requires Flags(s) && OneWay(s) && id < |s.pcs|
    ensures OneWay(Step(s, id))
  {
    hide Step;
    StepShape(s, id);
    var s1 := Step(s, id);
    forall i, j | 0 <= i < |s.pcs| && 0 <= j < |s.pcs| && i != j ensures !(Checked(s1, i, j) && Checked(s1, j, i)) {
      if i == id { StepChecked(s, id, j); }
      if j == id { StepChecked(s, id, i); }
      assert !(Checked(s, i, j) && Checked(s, j, i));
    }
  }

  lemma StepChecked(s: State, id: nat, j: nat)
    requires Flags(s) && id < |s.pcs| && j < |s.pcs| && j != id
    ensures Checked(Step(s, id), id, j) ==> Checked(s, id, j) || !Checked(s, j, id)
    ensures Checked(Step(s, id), j, id) ==> Checked(s, j, id)
  {
  }

  lemma TurnMoves(s: State, id: nat)
    requires Shape(s) && TurnOk(s) && id < |s.pcs|
    ensures var s1 := Step(s, id);
            && s1.turn < |s.pcs| && (s1.turn != s.turn ==> Past(s.pcs[id]))
            && (HasTurn(s1.pcs[id]) ==> s1.turn == id) && (s1.pcs[id].GiveTurn? ==> s1.pcs[id].next < |s.pcs|)
  {
    assert s.pcs[id].ExitScan? ==> s.pcs[id].j % |s.pcs| < |s.pcs|;
  }

  lemma StepTurn(s: State, id: nat)
    requires Inv(s) && id < |s.pcs|
    ensures TurnOk(Step(s, id))
  {
    Exclusive(s);
    hide OneWay, GuardOk, Step;
    StepShape(s, id);
    TurnMoves(s, id);
  }

  lemma StepGuard(s: State, id: nat)
    requires Inv(s) && id < |s.pcs|
    ensures GuardOk(Step(s, id)) && AssertionsHold(s, id)
  {
    Exclusive(s);
    var s1 := Step(s, id);
    if Guarded(s1.pcs[id]) {
      assert exists i :: 0 <= i < |s1.pcs| && Guarded(s1.pcs[i]);
    }
    if s.guard == 1 {
      var w :| 0 <= w < |s.pcs| && Guarded(s.pcs[w]);
      assert w != id ==> Guarded(s1.pcs[w]);
    }
  }

  /** Any schedule: which thread takes the next step. */
  ghost function Run(s: State, schedule: seq<nat>): State
    requires Shape(s) && forall k :: 0 <= k < |schedule| ==> schedule[k] < |s.pcs|
    decreases |schedule|
  {
    if schedule == [] then s else StepShape(s, schedule[0]); Run(Step(s, schedule[0]), schedule[1..])
  }

  lemma StepInv(s: State, id: nat)
    requires Inv(s) && id < |s.pcs|
    ensures Shape(s) && Inv(Step(s, id)) && Shape(Step(s, id)) && |Step(s, id).pcs| == |s.pcs|
  {
    hide Step, Flags, OneWay, TurnOk, GuardOk;
    assert Shape(s) by { FlagsShape(s); }
    StepShape(s, id);
    StepFlags(s, id);
    StepOneWay(s, id);
    StepTurn(s, id);
    StepGuard(s, id);
  }

  lemma {:induction false} RunInv(s: State, schedule: seq<nat>)
    requires Inv(s) && forall k :: 0 <= k < |schedule| ==> schedule[k] < |s.pcs|
    ensures Inv(Run(s, schedule)) && |Run(s, schedule).pcs| == |s.pcs|
    decreases |schedule|
  {
    hide Step, Flags, OneWay, TurnOk, GuardOk;
    if schedule != [] {
      var id := schedule[0];
      StepInv(s, id);
      RunInv(Step(s, id), schedule[1..]);
    }
  }

  lemma FlagsShape(s: State)
    requires Flags(s)
    ensures Shape(s)
  {
  }

  /** Mutual exclusion: for any number of threads and any schedule, no two are past the conflict scan, no GUARD
      assertion can fail, and the one in the section owns TURN until it gives it away. */
  lemma Safety(n: nat, schedule: seq<nat>)
    requires forall k :: 0 <= k < |schedule| ==> schedule[k] < n
    ensures var s := Run(Init(n), schedule);
            && |s.pcs| == n && MutualExclusion(s)
            && forall i :: 0 <= i < n ==> AssertionsHold(s, i) && (HasTurn(s.pcs[i]) ==> s.turn == i)
  {
    InitInv(n);
    RunInv(Init(n), schedule);
    var s := Run(Init(n), schedule);
    Exclusive(s);
    forall i | 0 <= i < n ensures AssertionsHold(s, i) { StepGuard(s, i); }
  }

  /** TURN is written only by the thread that holds the section. */
  lemma TurnWrittenByHolder(n: nat, schedule: seq<nat>, id: nat)
    requires (forall k :: 0 <= k < |schedule| ==> schedule[k] < n) && id < n
    ensures var s := Run(Init(n), schedule);
            |s.pcs| == n && Shape(s) && (Step(s, id).turn != s.turn ==>
              Past(s.pcs[id]) && s.flags[id] == In && forall j :: 0 <= j < n && j != id ==> !Past(s.pcs[j]))
  {
    InitInv(n);
    RunInv(Init(n), schedule);
    Exclusive(Run(Init(n), schedule));
  }

  // ----- the section can always be entered -----

  /** Some schedule leads from `s` to `t`. */
  ghost predicate Reaches(s: State, t: State) {
    Shape(s) && exists schedule: seq<nat> :: Leads(s, schedule, t)
  }

  ghost predicate Leads(s: State, schedule: seq<nat>, t: State)
    requires Shape(s)
  {
    (forall k :: 0 <= k < |schedule| ==> schedule[k] < |s.pcs|) && Run(s, schedule) == t
  }

  lemma ReachSelf(s: State)
    requires Shape(s)
    ensures Reaches(s, s)
  {
    assert Leads(s, [], s);
  }

  lemma ReachStep(s: State, id: nat)
    requires Shape(s) && id < |s.pcs|
    ensures Reaches(s, Step(s, id)) && Shape(Step(s, id)) && |Step(s, id).pcs| == |s.pcs|
  {
    hide Step;
    StepShape(s, id);
    var one := [id];
    assert one[0] == id && one[1..] == [];
    assert Run(s, one) == Run(Step(s, id), one[1..]);
    assert Leads(s, one, Step(s, id));
  }

  lemma {:induction false} RunConcat(s: State, a: seq<nat>, b: seq<nat>)
    requires Shape(s) && (forall k :: 0 <= k < |a| ==> a[k] < |s.pcs|) && forall k :: 0 <= k < |b| ==> b[k] < |s.pcs|
    ensures Shape(Run(s, a)) && |Run(s, a).pcs| == |s.pcs| && forall k :: 0 <= k < |a + b| ==> (a + b)[k] < |s.pcs|
    ensures Run(s, a + b) == Run(Run(s, a), b)
    decreases |a|
  {
    hide Step;
    if a == [] {
      assert a + b == b;
    } else {
      StepShape(s, a[0]);
      assert (a + b)[1..] == a[1..] + b && (a + b)[0] == a[0];
      RunConcat(Step(s, a[0]), a[1..], b);
    }
  }

  lemma ReachTrans(s: State, t: State, u: State)
    requires Reaches(s, t) && Reaches(t, u)
    ensures Reaches(s, u)
  {
    var a :| Leads(s, a, t);
    var b :| Leads(t, b, u);
    RunConcat(s, a, []);
    RunConcat(s, a, b);
    assert Leads(s, a + b, u);
  }

  lemma ReachInv(s: State, t: State)
    requires Inv(s) && Reaches(s, t)
    ensures Inv(t) && |t.pcs| == |s.pcs|
  {
    hide Step, Flags, OneWay, TurnOk, GuardOk;
    var a :| Leads(s, a, t);
    RunInv(s, a);
  }

  /** `t` is `s` with thread `id` at `pc`. */
  ghost predicate OnlyMoved(s: State, t: State, id: nat, pc: Pc) { id < |s.pcs| && t == Goto(s, id, pc) }

  /** A thread alone comes to the end of its conflict scan; without another `In` it is past it. */
  lemma {:induction false} FinishConflict(s: State, id: nat) returns (t: State)
    requires Shape(s) && id < |s.pcs| && s.pcs[id].Conflict?
    ensures Reaches(s, t) && (OnlyMoved(s, t, id, SetWant) || OnlyMoved(s, t, id, ClaimTurn))
    ensures !s.pcs[id].conflict && (forall j :: 0 <= j < |s.flags| && j != id ==> s.flags[j] != In) ==>
              OnlyMoved(s, t, id, ClaimTurn)
    decreases if s.pcs[id].k < |s.pcs| then |s.pcs| - s.pcs[id].k else 0
  {
    ReachStep(s, id);
    var s1 := Step(s, id);
    if s.pcs[id].k >= |s.pcs| {
      t := s1;
    } else {
      t := FinishConflict(s1, id);
      assert forall pc :: Goto(s1, id, pc) == Goto(s, id, pc);
      ReachTrans(s, s1, t);
    }
  }

  function FlagAt(flags: seq<Flag>, m: nat): Flag
    requires flags != []
  {
    flags[m % |flags|]
  }

  /** Nobody on the ring from `i` up to `end` has its flag up. */
  ghost predicate Quiet(flags: seq<Flag>, i: nat, end: nat)
    requires flags != []
  {
    forall m: nat :: i <= m < end ==> FlagAt(flags, m) == Out
  }

  /** The priority scan ends at a retry or at the claim; with nobody in between, at the claim. */
  lemma {:induction false} FinishScan(s: State, id: nat) returns (t: State)
    requires Shape(s) && id < |s.pcs| && s.pcs[id].Scan?
    ensures Reaches(s, t) && (OnlyMoved(s, t, id, LoadTurn) || OnlyMoved(s, t, id, SetIn))
    ensures Quiet(s.flags, s.pcs[id].i, s.pcs[id].end) ==> OnlyMoved(s, t, id, SetIn)
    decreases if s.pcs[id].i < s.pcs[id].end then s.pcs[id].end - s.pcs[id].i else 0
  {
    ReachStep(s, id);
    var s1 := Step(s, id);
    assert s.pcs[id].i < s.pcs[id].end ==> FlagAt(s.flags, s.pcs[id].i) == s.flags[s.pcs[id].i % |s.pcs|];
    if s1.pcs[id].Scan? {
      t := FinishScan(s1, id);
      assert forall pc :: Goto(s1, id, pc) == Goto(s, id, pc);
      ReachTrans(s, s1, t);
    } else {
      t := s1;
    }
  }

  ghost predicate Entered(s: State) { exists i :: 0 <= i < |s.pcs| && Past(s.pcs[i]) }

  ghost predicate NobodyIn(s: State, n: nat) { n <= |s.flags| && forall i :: 0 <= i < n ==> s.flags[i] != In }

  /** Contenders stay contenders. */
  ghost predicate StillThere(s: State, t: State) {
    |t.pcs| == |s.pcs| && forall i :: 0 <= i < |s.pcs| && s.pcs[i] != Idle ==> t.pcs[i] != Idle
  }

  /** A thread whose flag is `In` goes past the scan or back to `Want`. */
  lemma BackToWant(s: State, id: nat) returns (t: State)
    requires Flags(s) && id < |s.pcs| && s.flags[id] == In && !Past(s.pcs[id])
    ensures Reaches(s, t) && StillThere(s, t) && Shape(t)
    ensures Past(t.pcs[id]) || (t.flags == s.flags[id := Want])
  {
    hide Reaches;
    assert s.pcs[id].Conflict? || s.pcs[id].SetWant?;
    t := s;
    ReachSelf(s);
    if s.pcs[id].Conflict? { t := FinishConflict(s, id); }
    if t.pcs[id].SetWant? {
      ReachStep(t, id);
      ReachTrans(s, t, Step(t, id));
      t := Step(t, id);
    }
  }

  /** One thread after the other, every flag comes off `In`, or somebody gets in. */
  lemma {:induction false} AllBackToWant(s: State, n: nat) returns (t: State)
    requires Inv(s) && NobodyIn(s, n)
    ensures Reaches(s, t) && Inv(t) && StillThere(s, t) && (Entered(t) || NobodyIn(t, |t.pcs|))
    decreases |s.flags| - n
  {
    hide Reaches, OneWay, TurnOk, GuardOk;
    ReachSelf(s);
    t := s;
    if n < |s.flags| && !Entered(s) {
      if s.flags[n] == In {
        t := BackToWant(s, n);
        ReachInv(s, t);
        if Past(t.pcs[n]) { return; }
      }
      var s1 := t;
      t := AllBackToWant(s1, n + 1);
      ReachTrans(s, s1, t);
    }
  }

  /** The first place from `m` on whose flag is up. */
  lemma {:induction false} Nearest(flags: seq<Flag>, turn: nat, m: nat, last: nat) returns (r: nat)
    requires flags != [] && turn <= m <= last && FlagAt(flags, last) != Out && Quiet(flags, turn, m)
    ensures turn <= r <= last && FlagAt(flags, r) != Out && Quiet(flags, turn, r)
    decreases last - m
  {
    hide FlagAt;
    if FlagAt(flags, m) != Out { r := m; } else { r := Nearest(flags, turn, m + 1, last); }
  }

  lemma RingPlace(n: nat, turn: nat, d: nat)
    requires turn < n && d < n
    ensures var w := (turn + d) % n; w < n && turn + d == if w < turn then w + n else w
  {
    if turn + d < n { OnRing(n, turn + d); } else { OnRing(n, turn + d - n); }
  }

  /** With no flag `In`, a thread about to set its own gets in. */
  lemma ClaimSucceeds(s: State, w: nat) returns (t: State)
    requires Shape(s) && w < |s.pcs| && s.pcs[w] == SetIn && NobodyIn(s, |s.pcs|)
    ensures Reaches(s, t) && Entered(t)
  {
    hide Reaches;
    ReachStep(s, w);
    var s1 := Step(s, w);
    t := FinishConflict(s1, w);
    ReachTrans(s, s1, t);
    assert Past(t.pcs[w]);
  }

  /** Alone, a thread whose flag is `Want` and that nobody precedes comes to its claim. */
  lemma ComesToClaim(s: State, w: nat, place: nat) returns (t: State)
    requires Flags(s) && w < |s.pcs| && s.flags[w] == Want && place == (if w < s.turn then w + |s.pcs| else w)
    requires Quiet(s.flags, s.turn, place)
    ensures Reaches(s, t) && OnlyMoved(s, t, w, SetIn)
  {
    hide Reaches, Quiet;
    assert FlagOk(s.pcs[w], s.flags[w]);
    ReachSelf(s);
    t := s;
    if s.pcs[w].Scan? { t := FinishScan(s, w); }
    if t.pcs[w] == LoadTurn {
      var s1 := t;
      ReachStep(s1, w);
      var s2 := Step(s1, w);
      assert s2.pcs[w] == Scan(s.turn, place) && s2.flags == s.flags;
      t := FinishScan(s2, w);
      ReachTrans(s, s1, s2);
      ReachTrans(s, s2, t);
    }
  }

  /** The contender nearest to TURN gets in. */
  lemma NearestEnters(s: State, place: nat) returns (t: State)
    requires Flags(s) && NobodyIn(s, |s.pcs|) && s.turn < |s.pcs| && s.turn <= place < s.turn + |s.pcs|
    requires FlagAt(s.flags, place) != Out && Quiet(s.flags, s.turn, place)
    ensures Reaches(s, t) && Entered(t)
  {
    hide Reaches, Quiet, Entered;
    RingPlace(|s.pcs|, s.turn, place - s.turn);
    var w := place % |s.pcs|;
    var s1 := ComesToClaim(s, w, place);
    t := ClaimSucceeds(s1, w);
    ReachTrans(s, s1, t);
  }

  /** With a contender and no flag `In`, somebody can get in. */
  lemma QuietEnters(s: State, i: nat) returns (t: State)
    requires Inv(s) && NobodyIn(s, |s.pcs|) && i < |s.pcs| && s.pcs[i] != Idle && !Past(s.pcs[i])
    ensures Reaches(s, t) && Entered(t)
  {
    hide Reaches, OneWay, GuardOk, Quiet, Entered;
    assert FlagOk(s.pcs[i], s.flags[i]);
    var s1 := s;
    ReachSelf(s);
    if s.pcs[i] == SetWant {
      ReachStep(s, i);
      s1 := Step(s, i);
      ReachInv(s, s1);
    }
    assert s1.flags[i] == Want && NobodyIn(s1, |s1.pcs|);
    var last := if i >= s1.turn then i else i + |s1.pcs|;
    OnRing(|s1.pcs|, i);
    assert Quiet(s1.flags, s1.turn, s1.turn) by { QuietHere(s1.flags, s1.turn); }
    var place := Nearest(s1.flags, s1.turn, s1.turn, last);
    t := NearestEnters(s1, place);
    ReachTrans(s, s1, t);
  }

  lemma OnRing(n: nat, i: nat)
    requires i < n
    ensures i % n == i && (i + n) % n == i
  {
  }

  lemma QuietHere(flags: seq<Flag>, i: nat)
    requires flags != []
    ensures Quiet(flags, i, i)
  {
  }

  /** No deadlock: from every reachable state with a thread that wants in, some schedule brings a thread into the
      section. */
  lemma CanEnter(n: nat, schedule: seq<nat>, i: nat) returns (t: State)
    requires (forall k :: 0 <= k < |schedule| ==> schedule[k] < n) && i < n
    requires i < |Run(Init(n), schedule).pcs| && Run(Init(n), schedule).pcs[i] != Idle
    ensures Reaches(Run(Init(n), schedule), t) && Entered(t)
  {
    InitInv(n);
    RunInv(Init(n), schedule);
    hide Reaches, Run, Inv, Entered;
    var s := Run(Init(n), schedule);
    t := InvCanEnter(s, i);
  }

  lemma InvCanEnter(s: State, i: nat) returns (t: State)
    requires Inv(s) && i < |s.pcs| && s.pcs[i] != Idle
    ensures Reaches(s, t) && Entered(t)
  {
    hide Reaches, Flags, OneWay, TurnOk, GuardOk;
    assert NobodyIn(s, 0);
    var s1 := AllBackToWant(s, 0);
    if Entered(s1) {
      t := s1;
    } else {
      t := QuietEnters(s1, i);
      ReachTrans(s, s1, t);
    }
  }
}
