/**
 Pipes (os/src/fs/pipe.rs): a 32-byte ring filled and drained in chunks by
 calls that suspend between kernel stretches.  Whatever the interleaving, the
 bytes read followed by the bytes buffered are the bytes written.
 */
module Pipe {
  import opened Sequences
  import opened BlockDevice

  const RING_BUFFER_SIZE := 32

  datatype Status = Full | Empty | Normal

  // ----- one kernel stretch of a call -----

  /** A read's bytes after a stretch, what stays in the ring, and whether the call returns. */
  function ReadOnce(buffered: seq<byte>, got: seq<byte>, want: nat, closed: bool): (r: (seq<byte>, seq<byte>, bool))
    requires |got| <= want
    ensures r.0 + r.1 == got + buffered && |r.0| <= want
    ensures r.2 && |r.0| < want ==> r.1 == [] && closed
    ensures !r.2 ==> r.1 == [] && !closed
  {
    var n := Min(|buffered|, want - |got|);
    var rest := buffered[n..];
    (got + buffered[..n], rest, (buffered != [] && |got| + n == want) || (rest == [] && closed))
  }

  /** A write's ring after a stretch, what is still to write, and whether the call returns. */
  function WriteOnce(buffered: seq<byte>, data: seq<byte>): (r: (seq<byte>, seq<byte>, bool))
    requires |buffered| <= RING_BUFFER_SIZE
    ensures r.0 + r.1 == buffered + data && |r.0| <= RING_BUFFER_SIZE
    ensures !r.2 ==> |r.0| == RING_BUFFER_SIZE
    ensures r.2 ==> r.1 == []
  {
    var n := Min(RING_BUFFER_SIZE - |buffered|, |data|);
    (buffered + data[..n], data[n..], n == |data| && |buffered| < RING_BUFFER_SIZE)
  }

  // ----- the ring -----

  /** The `n` bytes from index `head` on, wrapping round. */
  function Ring(a: seq<byte>, head: nat, n: nat): (s: seq<byte>)
    requires |a| == RING_BUFFER_SIZE
    ensures |s| == n
  {
    seq(n, k requires k >= 0 => a[(head + k) % RING_BUFFER_SIZE])
  }

  lemma RingPush(a: seq<byte>, head: nat, n: nat, b: byte)
    requires |a| == RING_BUFFER_SIZE && n < RING_BUFFER_SIZE
    ensures Ring(a[(head + n) % RING_BUFFER_SIZE := b], head, n + 1) == Ring(a, head, n) + [b]
  {
    var before, after := Ring(a, head, n), Ring(a[(head + n) % RING_BUFFER_SIZE := b], head, n + 1);
    forall k | 0 <= k < n ensures after[k] == before[k] { WrapDiffers(head, k, n); }
  }

  lemma WrapDiffers(head: nat, k: nat, n: nat)
    requires k < n < RING_BUFFER_SIZE
    ensures (head + k) % RING_BUFFER_SIZE != (head + n) % RING_BUFFER_SIZE
  {
  }

  lemma RingPop(a: seq<byte>, head: nat, n: nat)
    requires |a| == RING_BUFFER_SIZE && n > 0
    ensures Ring(a, head, n)[0] == a[head % RING_BUFFER_SIZE]
    ensures Ring(a, (head + 1) % RING_BUFFER_SIZE, n - 1) == Ring(a, head, n)[1..]
  {
    var before, after := Ring(a, head, n), Ring(a, (head + 1) % RING_BUFFER_SIZE, n - 1);
    forall k | 0 <= k < n - 1 ensures after[k] == before[1..][k] { WrapShift(head, k); }
  }

  lemma WrapShift(head: nat, k: nat)
    ensures ((head + 1) % RING_BUFFER_SIZE + k) % RING_BUFFER_SIZE == (head + (k + 1)) % RING_BUFFER_SIZE
  {
  }

  class PipeRingBuffer {
    const arr: array<byte>
    var head: nat
    var tail: nat
    var status: Status

    ghost predicate Valid()
      reads this
    {
      arr.Length == RING_BUFFER_SIZE && head < RING_BUFFER_SIZE && tail < RING_BUFFER_SIZE && (status == Normal <==>
          head != tail)
    }

    ghost function Length(): (n: nat)
      requires Valid()
      reads this
      ensures n <= RING_BUFFER_SIZE
    {
      if status == Empty then 0 else if tail > head then tail - head else tail + RING_BUFFER_SIZE - head
    }

    /** The buffered bytes, oldest first. */
    ghost function Contents(): (s: seq<byte>)
      requires Valid()
      reads this, arr
      ensures |s| == Length()
    {
      Ring(arr[..], head, Length())
    }

    constructor ()
      ensures Valid() && Contents() == [] && fresh(arr)
    {
      arr := new byte[RING_BUFFER_SIZE](_ => 0);
      head, tail, status := 0, 0, Empty;
    }

    /** `available_read`. */
    method AvailableRead() returns (n: nat)
      requires Valid()
      ensures n == |Contents()|
    {
      if status == Empty { n := 0; } else if tail > head { n := tail - head; }
          else { n := tail + RING_BUFFER_SIZE - head; }
    }

    /** `available_write`: the two always add up to the ring's size. */
    method AvailableWrite() returns (n: nat)
      requires Valid()
      ensures n + |Contents()| == RING_BUFFER_SIZE
    {
      if status == Full {
        n := 0;
      } else {
        var used := AvailableRead();
        n := RING_BUFFER_SIZE - used;
      }
    }

    /** `write_byte` on a ring that is not full. */
    method WriteByte(b: byte)
      requires Valid() && |Contents()| < RING_BUFFER_SIZE
      modifies this, arr
      ensures Valid() && Contents() == old(Contents()) + [b]
    {
      hide Ring;
      ghost var n := Length();
      assert tail == (head + n) % RING_BUFFER_SIZE;
      RingPush(arr[..], head, n, b);
      ghost var after := arr[..][tail := b];
      status := Normal;
      arr[tail] := b;
      assert arr[..] == after;
      tail := (tail + 1) % RING_BUFFER_SIZE;
      if tail == head { status := Full; }
      assert Length() == n + 1;
    }

    /** `read_byte` on a ring that is not empty. */
    method ReadByte() returns (c: byte)
      requires Valid() && |Contents()| > 0
      modifies this
      ensures Valid() && c == old(Contents())[0] && Contents() == old(Contents())[1..]
    {
      hide Ring;
      ghost var n := Length();
      RingPop(arr[..], head, n);
      status := Normal;
      c := arr[head];
      head := (head + 1) % RING_BUFFER_SIZE;
      if head == tail { status := Empty; }
      assert Length() == n - 1;
    }

    /** `Pipe::read` from one resumption to the next suspension or return. */
    method Read(got0: seq<byte>, want: nat, closed: bool) returns (got: seq<byte>, done: bool)
      requires Valid() && |got0| <= want
      requires |got0| == want ==> want == 0
      modifies this
      ensures Valid() && (got, Contents(), done) == ReadOnce(old(Contents()), got0, want, closed)
    {
      hide Ring;
      got := got0;
      ghost var all := Contents();
      ghost var n := 0;
      while true
        invariant Valid() && 0 <= n <= |all| && got == got0 + all[..n] && Contents() == all[n..]
        invariant |got| <= want && (|got| == want ==> want == 0 && n == 0)
        invariant n == 0 || n == |all|
        decreases |all| - n
      {
        var loopRead := AvailableRead();
        if loopRead == 0 { return got, closed; }
        var i := 0;
        while i < loopRead
          invariant 0 <= i <= loopRead == |all| && n == i && Valid() && got == got0 + all[..n] && Contents() == all[n..]
          invariant |got| <= want && (|got| == want ==> want == 0 && n == 0)
        {
          if |got| == want { return got, true; }
          var b := ReadByte();
          got := got + [b];
          n := n + 1;
          assert got == got0 + all[..n];
          if |got| == want { return got, true; }
          i := i + 1;
        }
      }
    }

    /** `Pipe::write` from one resumption to the next suspension or return. */
    method Write(data: seq<byte>) returns (rest: seq<byte>, done: bool)
      requires Valid()
      modifies this, arr
      ensures Valid() && (Contents(), rest, done) == WriteOnce(old(Contents()), data)
    {
      hide Ring, WriteOnce;
      ghost var before, n := Contents(), 0;
      rest := data;
      assert data[..0] == [];
      while true
        invariant Valid() && 0 <= n <= |data| && rest == data[n..] && Contents() == before + data[..n]
        invariant n > 0 ==> |Contents()| == RING_BUFFER_SIZE && rest != []
        decreases |data| - n
      {
        var loopWrite := AvailableWrite();
        if loopWrite == 0 {
          WroteFull(before, data, n);
          return rest, false;
        }
        var i := 0;
        while i < loopWrite
          invariant 0 <= i <= loopWrite == RING_BUFFER_SIZE - |before| && n == i && Valid() && n <= |data|
          invariant rest == data[n..] && Contents() == before + data[..n] && (n > 0 ==> rest != [])
        {
          if rest == [] {
            WroteAll(before, data, n);
            return rest, true;
          }
          WriteByte(rest[0]);
          TakeOne(data, n);
          rest := rest[1..];
          n := n + 1;
          assert Contents() == before + data[..n];
          if rest == [] {
            WroteAll(before, data, n);
            return rest, true;
          }
          i := i + 1;
        }
      }
    }
  }

  lemma TakeOne(data: seq<byte>, n: nat)
    requires n < |data|
    ensures data[n..][0] == data[n] && data[n..][1..] == data[n + 1..] && data[..n] + [data[n]] == data[..n + 1]
  {
  }

  lemma WroteAll(before: seq<byte>, data: seq<byte>, n: nat)
    requires n <= |data| && data[n..] == [] && |before| < RING_BUFFER_SIZE && |before| + n <= RING_BUFFER_SIZE
    ensures WriteOnce(before, data) == (before + data[..n], [], true)
  {
  }

  lemma WroteFull(before: seq<byte>, data: seq<byte>, n: nat)
    requires n <= |data| && |before| + n == RING_BUFFER_SIZE && (n > 0 ==> data[n..] != [])
    ensures WriteOnce(before, data) == (before + data[..n], data[n..], false)
  {
  }

  // ----- histories -----

  /** Bytes in the order they passed, each with the call that moved it. */
  type History = seq<(nat, byte)>

  function Tag(id: nat, bytes: seq<byte>): History { seq(|bytes|, i requires 0 <= i < |bytes| => (id, bytes[i])) }

  /** The bytes, whoever moved them. */
  function Strip(h: History): seq<byte> { seq(|h|, i requires 0 <= i < |h| => h[i].1) }

  /** The bytes that call `id` moved, in order. */
  function Tagged(h: History, id: nat): seq<byte> {
    if h == [] then [] else Tagged(h[..|h| - 1], id) + if h[|h| - 1].0 == id then [h[|h| - 1].1] else []
  }

  lemma StripAppend(h: History, id: nat, bytes: seq<byte>)
    ensures Strip(h + Tag(id, bytes)) == Strip(h) + bytes
  {
  }

  lemma {:induction false} TaggedAppend(h: History, id: nat, bytes: seq<byte>, k: nat)
    ensures Tagged(h + Tag(id, bytes), k) == Tagged(h, k) + if k == id then bytes else []
    decreases |bytes|
  {
    if bytes == [] {
      assert h + Tag(id, bytes) == h;
    } else {
      var n := |bytes| - 1;
      var front := h + Tag(id, bytes[..n]);
      assert h + Tag(id, bytes) == front + [(id, bytes[n])];
      assert (front + [(id, bytes[n])])[..|front|] == front;
      TaggedAppend(h, id, bytes[..n], k);
      assert bytes[..n] + [bytes[n]] == bytes;
    }
  }

  // ----- any interleaving -----

  /** A call: what a read wants and has got, what a write was given and has still to write. */
  datatype Call = Reading(want: nat, got: seq<byte>) | Writing(data: seq<byte>, rest: seq<byte>)

  /** The ring's bytes, whether every write end is closed, calls in progress and finished, and what passed in and
      out. */
  datatype State = State(buffered: seq<byte>, closed: bool, calls: map<nat, Call>, results: map<nat, Call>,
                         sent: History, received: History)

  /** A call begins, a call runs for one stretch, or the last write end closes. */
  datatype Op = StartRead(id: nat, want: nat) | StartWrite(id: nat, data: seq<byte>) | Resume(id: nat) | Close

  predicate Enabled(s: State, op: Op) {
    match op
    case StartRead(id, _) => id !in s.calls && id !in s.results
    case StartWrite(id, _) => id !in s.calls && id !in s.results && !s.closed
    case Resume(id) => id in s.calls
    case Close => forall id :: id in s.calls ==> s.calls[id].Reading?
  }

  predicate CallOk(c: Call) { c.Reading? ==> |c.got| <= c.want && (|c.got| == c.want ==> c.want == 0) }

  /** Call `id` stands at `c` after its stretch, finished or suspended. */
  function Settle(s: State, id: nat, c: Call, done: bool): State {
    if done then s.(calls := s.calls - {id}, results := s.results[id := c]) else s.(calls := s.calls[id := c])
  }

  function Step(s: State, op: Op): State
    requires Enabled(s, op) && |s.buffered| <= RING_BUFFER_SIZE
    requires op.Resume? ==> CallOk(s.calls[op.id])
  {
    match op
    case StartRead(id, want) => s.(calls := s.calls[id := Reading(want, [])])
    case StartWrite(id, data) => s.(calls := s.calls[id := Writing(data, data)])
    case Close => s.(closed := true)
    case Resume(id) =>
      match s.calls[id]
      case Reading(want, got) =>
        var (got1, left, done) := ReadOnce(s.buffered, got, want, s.closed);
        var s1 := s.(buffered := left, received := s.received + Tag(id, got1[|got|..]));
        Settle(s1, id, Reading(want, got1), done)
      case Writing(data, rest) =>
        var (ring, rest1, done) := WriteOnce(s.buffered, rest);
        var s1 := s.(buffered := ring, sent := s.sent + Tag(id, rest[..|rest| - |rest1|]));
        Settle(s1, id, Writing(data, rest1), done)
  }

  // ----- what every run keeps -----

  /** The history and call `c` tell the same story: a read has got exactly the bytes it took, a write has put in exactly
      what it no longer has to write, in order. */
  predicate Story(c: Call, sent: seq<byte>, received: seq<byte>) {
    match c
    case Reading(_, got) => received == got && sent == []
    case Writing(data, rest) => sent + rest == data && received == []
  }

  ghost predicate Told(s: State, id: nat) {
    var sent, received := Tagged(s.sent, id), Tagged(s.received, id);
    if id in s.calls then Story(s.calls[id], sent, received)
    else if id in s.results then Story(s.results[id], sent, received)
    else sent == [] && received == []
  }

  /** A finished write is complete; a read that came back short came back to a drained pipe. */
  predicate ResultOk(c: Call, drained: bool) {
    match c
    case Reading(want, got) => |got| <= want && (|got| < want ==> drained)
    case Writing(_, rest) => rest == []
  }

  /** Bytes read followed by bytes buffered are the bytes written; after the last close there are no writers. */
  ghost predicate Stream(s: State) {
    && Strip(s.received) + s.buffered == Strip(s.sent) && |s.buffered| <= RING_BUFFER_SIZE
    && (s.closed ==> forall id :: id in s.calls ==> s.calls[id].Reading?)
  }

  ghost predicate Calls(s: State) {
    && (forall id :: id in s.calls ==> CallOk(s.calls[id]) && id !in s.results)
    && forall id :: id in s.results ==> ResultOk(s.results[id], s.closed && s.buffered == [])
  }

  ghost predicate Inv(s: State) { Stream(s) && Calls(s) && forall id: nat :: Told(s, id) }

  /** A read moves the front of the ring to its own bytes. */
  lemma ReadTakesFront(buffered: seq<byte>, got: seq<byte>, want: nat, closed: bool)
    requires |got| <= want && (|got| == want ==> want == 0)
    ensures var r := ReadOnce(buffered, got, want, closed);
            && |r.0| >= |got| && r.0[..|got|] == got && r.0[|got|..] + r.1 == buffered && |r.1| <= |buffered|
            && (r.2 ==> ResultOk(Reading(want, r.0), closed && r.1 == [])) && (!r.2 ==> CallOk(Reading(want, r.0)))
            && (buffered == [] ==> r.1 == [])
  {
  }

  lemma WriteAddsBack(buffered: seq<byte>, rest: seq<byte>)
    requires |buffered| <= RING_BUFFER_SIZE
    ensures var r := WriteOnce(buffered, rest);
            && |r.1| <= |rest| && r.0 == buffered + rest[..|rest| - |r.1|] && |r.0| <= RING_BUFFER_SIZE
            && rest[|rest| - |r.1|..] == r.1 && (r.2 ==> r.1 == [])
  {
  }

  lemma SettleCalls(s: State, id: nat, c: Call, done: bool)
    requires forall k :: k in s.calls && k != id ==> CallOk(s.calls[k]) && k !in s.results
    requires forall k :: k in s.results ==> ResultOk(s.results[k], s.closed && s.buffered == [])
    requires id in s.calls && id !in s.results && (done ==> ResultOk(c, s.closed && s.buffered == []))
    requires (!done ==> CallOk(c))
    ensures Calls(Settle(s, id, c, done))
  {
    hide CallOk, ResultOk;
  }

  /** Only the story of `id` goes on. */
  lemma SettleTold(s: State, s1: State, id: nat, c: Call, done: bool, k: nat)
    requires Told(s, k) && id in s.calls && s1.calls == s.calls && s1.results == s.results
    requires k != id ==> Tagged(s1.sent, k) == Tagged(s.sent, k) && Tagged(s1.received, k) == Tagged(s.received, k)
    requires k == id ==> Story(c, Tagged(s1.sent, k), Tagged(s1.received, k)) && (done ==> id !in s.results)
    ensures Told(Settle(s1, id, c, done), k)
  {
    hide Story, Tagged;
  }

  lemma ReadResume(s: State, id: nat, want: nat, got: seq<byte>)
    requires Inv(s) && id in s.calls && s.calls[id] == Reading(want, got)
    ensures Inv(Step(s, Resume(id)))
  {
    hide ReadOnce, Tagged, Strip, Settle, Told;
    var (got1, left, done) := ReadOnce(s.buffered, got, want, s.closed);
    var took := got1[|got|..];
    ReadTakesFront(s.buffered, got, want, s.closed);
    var s1 := s.(buffered := left, received := s.received + Tag(id, took));
    StripAppend(s.received, id, took);
    assert Strip(s.received) + took + left == Strip(s.received) + s.buffered;
    SettleCalls(s1, id, Reading(want, got1), done);
    forall k: nat ensures Told(Settle(s1, id, Reading(want, got1), done), k) {
      TaggedAppend(s.received, id, took, k);
      assert Told(s, k);
      if k == id { ReadStory(s, s1, id, want, got, got1); }
      SettleTold(s, s1, id, Reading(want, got1), done, k);
    }
    SettleStream(s1, id, Reading(want, got1), done);
  }

  lemma ReadStory(s: State, s1: State, id: nat, want: nat, got: seq<byte>, got1: seq<byte>)
    requires Told(s, id) && id in s.calls && s.calls[id] == Reading(want, got) && |got| <= |got1|
    requires got1[..|got|] == got
    requires s1.sent == s.sent && Tagged(s1.received, id) == Tagged(s.received, id) + got1[|got|..]
    ensures Story(Reading(want, got1), Tagged(s1.sent, id), Tagged(s1.received, id))
  {
    hide Tagged;
  }

  lemma SettleStream(s: State, id: nat, c: Call, done: bool)
    requires Stream(s) && id in s.calls && (s.closed && !done ==> c.Reading?)
    ensures Stream(Settle(s, id, c, done))
  {
    hide Strip;
  }

  lemma WriteResume(s: State, id: nat, data: seq<byte>, rest: seq<byte>)
    requires Inv(s) && id in s.calls && s.calls[id] == Writing(data, rest)
    ensures Inv(Step(s, Resume(id)))
  {
    hide WriteOnce, Tagged, Strip, Settle, Told;
    var (ring, rest1, done) := WriteOnce(s.buffered, rest);
    WriteAddsBack(s.buffered, rest);
    var put := rest[..|rest| - |rest1|];
    var s1 := s.(buffered := ring, sent := s.sent + Tag(id, put));
    StripAppend(s.sent, id, put);
    assert Strip(s.received) + ring == Strip(s.received) + s.buffered + put;
    assert !s.closed;
    SettleCalls(s1, id, Writing(data, rest1), done);
    forall k: nat ensures Told(Settle(s1, id, Writing(data, rest1), done), k) {
      TaggedAppend(s.sent, id, put, k);
      assert Told(s, k);
      if k == id { WriteStory(s, s1, id, data, rest, rest1); }
      SettleTold(s, s1, id, Writing(data, rest1), done, k);
    }
    SettleStream(s1, id, Writing(data, rest1), done);
  }

  lemma WriteStory(s: State, s1: State, id: nat, data: seq<byte>, rest: seq<byte>, rest1: seq<byte>)
    requires Told(s, id) && id in s.calls && s.calls[id] == Writing(data, rest)
    requires |rest1| <= |rest| && rest[|rest| - |rest1|..] == rest1 && s1.received == s.received
    requires Tagged(s1.sent, id) == Tagged(s.sent, id) + rest[..|rest| - |rest1|]
    ensures Story(Writing(data, rest1), Tagged(s1.sent, id), Tagged(s1.received, id))
  {
    hide Tagged;
    assert rest[..|rest| - |rest1|] + rest1 == rest;
  }

  lemma StepInv(s: State, op: Op)
    requires Inv(s) && Enabled(s, op)
    ensures Inv(Step(s, op))
  {
    hide ReadOnce, WriteOnce, Tagged, Strip;
    if op.Resume? {
      match s.calls[op.id] {
        case Reading(want, got) => ReadResume(s, op.id, want, got);
        case Writing(data, rest) => WriteResume(s, op.id, data, rest);
      }
    } else {
      forall k: nat ensures Told(Step(s, op), k) { assert Told(s, k); }
    }
  }

  ghost predicate Legal(s: State, ops: seq<Op>)
    requires Inv(s)
    decreases |ops|
  {
    ops == [] || (Enabled(s, ops[0]) && (StepInv(s, ops[0]); Legal(Step(s, ops[0]), ops[1..])))
  }

  ghost function Run(s: State, ops: seq<Op>): State
    requires Inv(s) && Legal(s, ops)
    decreases |ops|
  {
    if ops == [] then s else StepInv(s, ops[0]); Run(Step(s, ops[0]), ops[1..])
  }

  function New(): (s: State)
    ensures Inv(s)
  {
    State([], false, map[], map[], [], [])
  }

  lemma {:induction false} RunInv(s: State, ops: seq<Op>)
    requires Inv(s) && Legal(s, ops)
    ensures Inv(Run(s, ops))
    decreases |ops|
  {
    hide ReadOnce, WriteOnce, Step, Strip, Told;
    if ops != [] {
      StepInv(s, ops[0]);
      RunInv(Step(s, ops[0]), ops[1..]);
    }
  }

  /** Stream integrity over every run from a new pipe: the bytes read, then the bytes buffered, are the bytes written; a
      read, finished or not, has got exactly the bytes it took from the stream, and short only from a drained pipe; a
      finished write has put in exactly its data, in order. */
  lemma StreamIntegrity(ops: seq<Op>)
    requires Legal(New(), ops)
    ensures var s := Run(New(), ops);
            && Strip(s.received) + s.buffered == Strip(s.sent) && |s.buffered| <= RING_BUFFER_SIZE
            && (forall id :: id in s.calls && s.calls[id].Reading? ==> s.calls[id].got == Tagged(s.received, id))
            && (forall id :: id in s.calls && s.calls[id].Writing? ==>
                Tagged(s.sent, id) + s.calls[id].rest == s.calls[id].data)
            && (forall id :: id in s.results && s.results[id].Writing? ==> Tagged(s.sent, id) == s.results[id].data)
            && forall id :: id in s.results && s.results[id].Reading? ==>
                 s.results[id].got == Tagged(s.received, id) && (|s.results[id].got| < s.results[id].want ==>
                     s.closed && s.buffered == [])
  {
    hide Step, Enabled, Tagged, Strip;
    RunInv(New(), ops);
    var s := Run(New(), ops);
    forall id | id in s.calls || id in s.results ensures Told(s, id) {}
  }
}
