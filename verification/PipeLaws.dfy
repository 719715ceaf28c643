/**
 What each stretch of a pipe call does, in bytes, and that a writer and a
 reader who take turns get any amount of data through the 32-byte ring.
 */
module PipeLaws {
  import opened Sequences
  import opened BlockDevice
  import opened Pipe

  /** Only call `id` changes: it stands at `c`, finished or not. */
  ghost predicate Settled(s: State, s1: State, id: nat, c: Call, done: bool) {
    && s1.closed == s.closed
    && s1.calls == (if done then s.calls - {id} else s.calls[id := c])
    && s1.results == (if done then s.results[id := c] else s.results)
  }

  /** A call begins with nothing read or everything to write; the last close is noted. */
  lemma StartTells(s: State, op: Op)
    requires Inv(s) && Enabled(s, op) && !op.Resume?
    ensures var s1 := Step(s, op);
            && s1.buffered == s.buffered && s1.results == s.results
            && s1.closed == (s.closed || op.Close?)
            && s1.calls == (match op
                            case StartRead(id, want) => s.calls[id := Reading(want, [])]
                            case StartWrite(id, data) => s.calls[id := Writing(data, data)]
                            case _ => s.calls)
  {
  }

  /** How many bytes a read takes, and whether it then returns. */
  lemma ReadOnceIs(b: seq<byte>, got: seq<byte>, want: nat, closed: bool)
    requires |got| <= want
    ensures var k := if |b| <= want - |got| then |b| else want - |got|;
            var done := (b != [] && |got| + |b| >= want) || (closed && |got| + |b| <= want);
            ReadOnce(b, got, want, closed) == (got + b[..k], b[k..], done)
  {
  }

  lemma WriteOnceIs(b: seq<byte>, rest: seq<byte>)
    requires |b| <= 32
    ensures var k := if |rest| <= 32 - |b| then |rest| else 32 - |b|;
            WriteOnce(b, rest) == (b + rest[..k], rest[k..], k == |rest| && |b| < 32)
  {
  }

  lemma CallFits(s: State, id: nat)
    requires Inv(s) && id in s.calls
    ensures |s.buffered| <= 32 && CallOk(s.calls[id])
  {
    hide Told, CallOk, Strip;
  }

  /** A stretch of a read takes as many bytes from the front of the ring as it still wants and the ring has.  It returns
      iff it found bytes and now has all it wants, or the pipe is closed and the ring drained. */
  lemma ReadTells(s: State, id: nat, want: nat, got: seq<byte>)
    requires Inv(s) && id in s.calls && s.calls[id] == Reading(want, got)
    ensures |got| <= want
    ensures var b := s.buffered;
            var k := if |b| <= want - |got| then |b| else want - |got|;
            var done := (b != [] && |got| + |b| >= want) || (s.closed && |got| + |b| <= want);
            && Step(s, Resume(id)).buffered == b[k..]
            && Settled(s, Step(s, Resume(id)), id, Reading(want, got + b[..k]), done)
  {
    CallFits(s, id);
    hide Inv, ReadOnce, WriteOnce, Tag;
    ReadOnceIs(s.buffered, got, want, s.closed);
  }

  /** A stretch of a write puts as much as fits behind what is in the ring.  It returns iff everything is in and the
      ring had not been full. */
  lemma WriteTells(s: State, id: nat, data: seq<byte>, rest: seq<byte>)
    requires Inv(s) && id in s.calls && s.calls[id] == Writing(data, rest)
    ensures |s.buffered| <= 32
    ensures var b := s.buffered;
            var k := if |rest| <= 32 - |b| then |rest| else 32 - |b|;
            && Step(s, Resume(id)).buffered == b + rest[..k]
            && Settled(s, Step(s, Resume(id)), id, Writing(data, rest[k..]), k == |rest| && |b| < 32)
  {
    CallFits(s, id);
    hide Inv, ReadOnce, WriteOnce, Tag;
    WriteOnceIs(s.buffered, rest);
  }

  /** A writer `w` with `rest` still to write and a reader `r` that wants just that and what is in the ring. */
  ghost predicate Matched(s: State, w: nat, r: nat) {
    && Inv(s) && !s.closed && w in s.calls && r in s.calls && s.calls[w].Writing? && s.calls[r].Reading?
    && |s.calls[r].got| + |s.buffered| + |s.calls[w].rest| == s.calls[r].want && |s.calls[r].got| < s.calls[r].want
  }

  /** Both calls are over: everything was written, and the reader has what it had, then the ring, then the rest. */
  ghost predicate Through(s: State, t: State, w: nat, r: nat)
    requires Matched(s, w, r)
  {
    && w in t.results && t.results[w] == Writing(s.calls[w].data, [])
    && r in t.results && t.results[r] == Reading(s.calls[r].want, s.calls[r].got + s.buffered + s.calls[w].rest)
  }

  /** A run that begins with `a`. */
  lemma OneFirst(s: State, a: Op, rest: seq<Op>)
    requires Inv(s) && Enabled(s, a) && Inv(Step(s, a)) && Legal(Step(s, a), rest)
    ensures Legal(s, [a] + rest) && Run(s, [a] + rest) == Run(Step(s, a), rest)
  {
    hide Told;
    var ops := [a] + rest;
    assert ops[0] == a && ops[1..] == rest;
    hide Step;
  }

  /** `t` continues `s`: the same two calls, the same bytes in order, fewer of them still to read. */
  ghost predicate Continues(s: State, t: State, w: nat, r: nat)
    requires Matched(s, w, r)
  {
    && Matched(t, w, r) && |t.buffered| + |t.calls[w].rest| < |s.buffered| + |s.calls[w].rest|
    && t.calls[w].data == s.calls[w].data && t.calls[r].want == s.calls[r].want
    && t.calls[r].got + t.buffered + t.calls[w].rest == s.calls[r].got + s.buffered + s.calls[w].rest
  }

  /** A full ring: the reader empties it; if nothing is left to write, both are done after the writer's next stretch. */
  lemma FullTurn(s: State, w: nat, r: nat)
    requires Matched(s, w, r) && |s.buffered| == 32
    ensures var s1 := Step(s, Resume(r));
            && Inv(s1) && (s.calls[w].rest != [] ==> Continues(s, s1, w, r))
            && (s.calls[w].rest == [] ==>
                 w in s1.calls && Inv(Step(s1, Resume(w))) && Through(s, Step(s1, Resume(w)), w, r))
  {
    hide Told, ReadOnce, WriteOnce;
    StepInv(s, Resume(r));
    ReadTells(s, r, s.calls[r].want, s.calls[r].got);
    var s1 := Step(s, Resume(r));
    hide Step;
    assert s.buffered[..32] == s.buffered && s.buffered[32..] == [];
    if s.calls[w].rest == [] {
      StepInv(s1, Resume(w));
      WriteTells(s1, w, s1.calls[w].data, s1.calls[w].rest);
      assert s.calls[r].got + s.buffered + [] == s.calls[r].got + s.buffered;
    } else {
      assert s.calls[r].got + s.buffered + [] == s.calls[r].got + s.buffered;
    }
  }

  /** Room in the ring: the writer puts in what fits, and the reader takes it all. */
  lemma RoomTurn(s: State, w: nat, r: nat)
    requires Matched(s, w, r) && |s.buffered| < 32
    ensures var s1 := Step(s, Resume(w));
            && Inv(s1) && r in s1.calls
            && var t := Step(s1, Resume(r));
               Inv(t) && (Through(s, t, w, r) || Continues(s, t, w, r))
  {
    hide Told, ReadOnce, WriteOnce;
    StepInv(s, Resume(w));
    WriteTells(s, w, s.calls[w].data, s.calls[w].rest);
    var s1, b, rest, got := Step(s, Resume(w)), s.buffered, s.calls[w].rest, s.calls[r].got;
    StepInv(s1, Resume(r));
    ReadTells(s1, r, s1.calls[r].want, s1.calls[r].got);
    hide Step;
    var k := if |rest| <= 32 - |b| then |rest| else 32 - |b|;
    var ring := b + rest[..k];
    assert s1.buffered == ring && s1.calls[r] == s.calls[r];
    assert ring[..|ring|] == ring && ring[|ring|..] == [];
    Bytes(got, b, rest, k);
  }

  lemma Bytes(got: seq<byte>, b: seq<byte>, rest: seq<byte>, k: nat)
    requires k <= |rest|
    ensures got + (b + rest[..k]) + [] + rest[k..] == got + b + rest
    ensures k == |rest| ==> got + (b + rest[..k]) == got + b + rest
  {
    assert rest[..k] + rest[k..] == rest;
  }

  /** Any amount of data gets through: if the reader wants what is in the ring and what the writer still has, taking
      turns brings both calls to their end, with every byte in order. */
  lemma {:induction false} Transfer(s: State, w: nat, r: nat) returns (ops: seq<Op>)
    requires Matched(s, w, r)
    ensures Legal(s, ops) && Through(s, Run(s, ops), w, r)
    decreases |s.buffered| + |s.calls[w].rest|
  {
    hide Told, ReadOnce, WriteOnce, Stream;
    assert |s.buffered| <= 32 by { CallFits(s, w); }
    if |s.buffered| == 32 {
      FullTurn(s, w, r);
      hide Step;
      var s1 := Step(s, Resume(r));
      if s.calls[w].rest == [] {
        ops := [Resume(w)] + [];
        OneFirst(s1, Resume(w), []);
      } else {
        ops := Transfer(s1, w, r);
      }
      OneFirst(s, Resume(r), ops);
      ops := [Resume(r)] + ops;
    } else {
      RoomTurn(s, w, r);
      hide Step;
      var s1 := Step(s, Resume(w));
      var t := Step(s1, Resume(r));
      if Through(s, t, w, r) { ops := []; } else { ops := Transfer(t, w, r); }
      OneFirst(s1, Resume(r), ops);
      ops := [Resume(r)] + ops;
      OneFirst(s, Resume(w), ops);
      ops := [Resume(w)] + ops;
    }
  }
}
