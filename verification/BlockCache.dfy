/**
 The block cache (easy-fs/src/block_cache.rs) over one device: sixteen
 write-back entries, evicted front first among those nobody holds.  Whatever
 is cached, loaded, evicted or synced, a reader sees one plain map of blocks.
 */
module BlockCache {
  import opened Wrappers
  import opened BlockDevice

  const BLOCK_CACHE_SIZE := 16

  /** A queue element: the cached block and the handles on it outside the queue (`strong_count - 1`). */
  datatype Entry = Entry(id: u32, data: Block, modified: bool, holders: nat)

  // ----- the view -----

  /** The position of the entry for `id`, or the queue's length. */
  function IndexOf(queue: seq<Entry>, id: u32): (i: nat)
    ensures i <= |queue| && (i < |queue| ==> queue[i].id == id)
    ensures forall j :: 0 <= j < i ==> queue[j].id != id
  {
    if queue == [] || queue[0].id == id then 0 else 1 + IndexOf(queue[1..], id)
  }

  /** What a reader of block `id` gets: the cached content if present, else the disk's. */
  function ViewAt(queue: seq<Entry>, disk: Blocks, id: u32): Block
    requires id in disk
  {
    var i := IndexOf(queue, id);
    if i < |queue| then queue[i].data else disk[id]
  }

  function View(queue: seq<Entry>, disk: Blocks): Blocks {
    map id | id in disk :: ViewAt(queue, disk, id)
  }

  /** At most sixteen entries, one per block, each clean entry equal to its block. */
  ghost predicate CacheOk(queue: seq<Entry>, disk: Blocks) {
    && |queue| <= BLOCK_CACHE_SIZE && Unique(queue)
    && forall i :: 0 <= i < |queue| ==>
        queue[i].id in disk && (!queue[i].modified ==> queue[i].data == disk[queue[i].id])
  }

  ghost predicate Unique(queue: seq<Entry>) { forall i, j :: 0 <= i < j < |queue| ==> queue[i].id != queue[j].id }

  lemma ViewBy(queue: seq<Entry>, disk: Blocks, i: nat)
    requires CacheOk(queue, disk) && i < |queue|
    ensures IndexOf(queue, queue[i].id) == i && ViewAt(queue, disk, queue[i].id) == queue[i].data
  {
  }

  lemma NotCached(queue: seq<Entry>, disk: Blocks, id: u32)
    requires id in disk && forall j :: 0 <= j < |queue| ==> queue[j].id != id
    ensures ViewAt(queue, disk, id) == disk[id]
  {
  }

  // ----- the effect of each step on the view -----

  /** `BlockCache::sync` on entry `i`. */
  function Synced(disk: Blocks, e: Entry): Blocks { if e.modified then disk[e.id := e.data] else disk }

  lemma EvictOk(queue: seq<Entry>, disk: Blocks, i: nat)
    requires CacheOk(queue, disk) && i < |queue|
    ensures CacheOk(queue[..i] + queue[i + 1..], Synced(disk, queue[i]))
  {
  }

  /** Evicting an entry writes it back: the view does not change. */
  lemma EvictKeeps(queue: seq<Entry>, disk: Blocks, i: nat)
    requires CacheOk(queue, disk) && i < |queue|
    ensures CacheOk(queue[..i] + queue[i + 1..], Synced(disk, queue[i]))
    ensures View(queue[..i] + queue[i + 1..], Synced(disk, queue[i])) == View(queue, disk)
  {
    hide IndexOf, ViewAt, CacheOk;
    var q1, d1 := queue[..i] + queue[i + 1..], Synced(disk, queue[i]);
    EvictOk(queue, disk, i);
    CachedInDisk(queue, disk, i);
    assert d1.Keys == disk.Keys;
    forall id | id in disk ensures ViewAt(q1, d1, id) == ViewAt(queue, disk, id) {
      if k :| 0 <= k < |queue| && queue[k].id == id {
        ViewBy(queue, disk, k);
        if k == i {
          NotCached(q1, d1, id);
        } else {
          var k1 := if k < i then k else k - 1;
          assert q1[k1] == queue[k];
          ViewBy(q1, d1, k1);
        }
      } else {
        NotCached(queue, disk, id);
        NotCached(q1, d1, id);
      }
    }
  }

  /** Loading a block that is not cached: the view does not change. */
  lemma LoadKeeps(queue: seq<Entry>, disk: Blocks, id: u32, holders: nat)
    requires CacheOk(queue, disk) && |queue| < BLOCK_CACHE_SIZE && id in disk
    requires forall j :: 0 <= j < |queue| ==> queue[j].id != id
    ensures CacheOk(queue + [Entry(id, disk[id], false, holders)], disk)
    ensures View(queue + [Entry(id, disk[id], false, holders)], disk) == View(queue, disk)
  {
    hide IndexOf;
    var q1 := queue + [Entry(id, disk[id], false, holders)];
    forall b | b in disk ensures ViewAt(q1, disk, b) == ViewAt(queue, disk, b) {
      if k :| 0 <= k < |queue| && queue[k].id == b {
        ViewBy(queue, disk, k);
        assert q1[k] == queue[k];
        ViewBy(q1, disk, k);
      } else {
        NotCached(queue, disk, b);
        if b == id { ViewBy(q1, disk, |queue|); } else { NotCached(q1, disk, b); }
      }
    }
  }

  lemma UpdateOk(queue: seq<Entry>, disk: Blocks, i: nat, e: Entry)
    requires CacheOk(queue, disk) && i < |queue| && e.id == queue[i].id
    requires e.modified || (e.data == queue[i].data && !queue[i].modified)
    ensures CacheOk(queue[i := e], disk)
  {
  }

  /** Replacing entry `i`'s data, marked modified: the view changes at that block only. */
  lemma UpdateView(queue: seq<Entry>, disk: Blocks, i: nat, e: Entry)
    requires CacheOk(queue, disk) && i < |queue| && e.id == queue[i].id
    requires e.modified || (e.data == queue[i].data && !queue[i].modified)
    ensures CacheOk(queue[i := e], disk)
    ensures View(queue[i := e], disk) == View(queue, disk)[e.id := e.data]
  {
    hide IndexOf, CacheOk, ViewAt;
    var q1 := queue[i := e];
    UpdateOk(queue, disk, i, e);
    CachedInDisk(queue, disk, i);
    forall b | b in disk ensures ViewAt(q1, disk, b) == if b == e.id then e.data else ViewAt(queue, disk, b) {
      if k :| 0 <= k < |queue| && queue[k].id == b {
        ViewBy(queue, disk, k);
        ViewBy(q1, disk, k);
      } else {
        NotCached(queue, disk, b);
        NotCached(q1, disk, b);
      }
    }
  }

  lemma SameData(queue: seq<Entry>, disk: Blocks, i: nat)
    requires CacheOk(queue, disk) && i < |queue|
    ensures View(queue, disk)[queue[i].id := queue[i].data] == View(queue, disk)
  {
    ViewBy(queue, disk, i);
  }

  lemma SyncOk(queue: seq<Entry>, disk: Blocks, i: nat)
    requires CacheOk(queue, disk) && i < |queue|
    ensures CacheOk(queue[i := queue[i].(modified := false)], Synced(disk, queue[i]))
  {
  }

  lemma CachedInDisk(queue: seq<Entry>, disk: Blocks, i: nat)
    requires CacheOk(queue, disk) && i < |queue|
    ensures Unique(queue) && queue[i].id in disk && (!queue[i].modified ==> queue[i].data == disk[queue[i].id])
  {
  }

  /** Syncing entry `i` in place. */
  lemma SyncKeeps(queue: seq<Entry>, disk: Blocks, i: nat)
    requires CacheOk(queue, disk) && i < |queue|
    ensures CacheOk(queue[i := queue[i].(modified := false)], Synced(disk, queue[i]))
    ensures View(queue[i := queue[i].(modified := false)], Synced(disk, queue[i])) == View(queue, disk)
  {
    hide IndexOf, CacheOk, ViewAt;
    var q1, d1 := queue[i := queue[i].(modified := false)], Synced(disk, queue[i]);
    SyncOk(queue, disk, i);
    CachedInDisk(queue, disk, i);
    assert d1.Keys == disk.Keys;
    forall b | b in disk ensures ViewAt(q1, d1, b) == ViewAt(queue, disk, b) {
      if k :| 0 <= k < |queue| && queue[k].id == b {
        ViewBy(queue, disk, k);
        ViewBy(q1, d1, k);
      } else {
        NotCached(queue, disk, b);
        NotCached(q1, d1, b);
      }
    }
  }

  /** With every entry clean, the view is the disk. */
  lemma CleanViewIsDisk(queue: seq<Entry>, disk: Blocks)
    requires CacheOk(queue, disk) && forall i :: 0 <= i < |queue| ==> !queue[i].modified
    ensures View(queue, disk) == disk
  {
  }

  // ----- handles -----

  function HoldersAt(queue: seq<Entry>, id: u32): nat {
    var i := IndexOf(queue, id);
    if i < |queue| then queue[i].holders else 0
  }

  /** Every cached block is held and the queue is full: the only state in which a load panics. */
  ghost predicate Exhausted(queue: seq<Entry>) {
    |queue| == BLOCK_CACHE_SIZE && forall i :: 0 <= i < |queue| ==> queue[i].holders > 0
  }

  lemma HoldersBy(queue: seq<Entry>, i: nat)
    requires Unique(queue) && i < |queue|
    ensures HoldersAt(queue, queue[i].id) == queue[i].holders
  {
  }

  lemma {:induction false} HoldersNone(queue: seq<Entry>, id: u32)
    requires forall j :: 0 <= j < |queue| ==> queue[j].id != id
    ensures HoldersAt(queue, id) == 0
  {
    assert IndexOf(queue, id) == |queue|;
  }

  /** Dropping an entry nobody holds changes no one's handles. */
  lemma EvictHolders(queue: seq<Entry>, i: nat, id: u32)
    requires Unique(queue) && i < |queue| && queue[i].holders == 0
    ensures HoldersAt(queue[..i] + queue[i + 1..], id) == HoldersAt(queue, id)
  {
    hide HoldersAt;
    var q1 := queue[..i] + queue[i + 1..];
    if k :| 0 <= k < |queue| && queue[k].id == id {
      HoldersBy(queue, k);
      if k == i {
        HoldersNone(q1, id);
      } else {
        var k1 := if k < i then k else k - 1;
        assert q1[k1] == queue[k];
        HoldersBy(q1, k1);
      }
    } else {
      HoldersNone(queue, id);
      HoldersNone(q1, id);
    }
  }

  lemma LoadHolders(queue: seq<Entry>, e: Entry, id: u32)
    requires Unique(queue) && Unique(queue + [e])
    ensures HoldersAt(queue + [e], id) == if id == e.id then e.holders else HoldersAt(queue, id)
  {
    hide HoldersAt;
    var q1 := queue + [e];
    assert q1[|queue|] == e;
    if k :| 0 <= k < |queue| && queue[k].id == id {
      assert q1[k] == queue[k];
      HoldersBy(queue, k);
      HoldersBy(q1, k);
    } else if id == e.id {
      HoldersBy(q1, |queue|);
    } else {
      HoldersNone(queue, id);
      HoldersNone(q1, id);
    }
  }

  lemma UpdateHolders(queue: seq<Entry>, i: nat, e: Entry, id: u32)
    requires Unique(queue) && i < |queue| && e.id == queue[i].id
    ensures HoldersAt(queue[i := e], id) == if id == e.id then e.holders else HoldersAt(queue, id)
  {
    hide HoldersAt;
    var q1 := queue[i := e];
    if k :| 0 <= k < |queue| && queue[k].id == id {
      HoldersBy(queue, k);
      HoldersBy(q1, k);
    } else {
      HoldersNone(queue, id);
      HoldersNone(q1, id);
    }
  }

  function Spliced(b: Block, offset: nat, bytes: seq<byte>): Block
    requires offset + |bytes| <= BLOCK_SZ
  {
    b[..offset] + bytes + b[offset + |bytes|..]
  }

  // ----- the manager -----

  class BlockCacheManager {
    var queue: seq<Entry>
    var disk: Blocks

    ghost predicate Valid() reads this { CacheOk(queue, disk) }

    ghost function Now(): Blocks reads this { View(queue, disk) }

    constructor (disk: Blocks)
      ensures Valid() && Now() == disk && queue == []
    {
      queue := [];
      this.disk := disk;
      new;
      CleanViewIsDisk(queue, this.disk);
    }

    method Position(id: u32) returns (i: nat)
      ensures i == IndexOf(queue, id)
    {
      i := 0;
      while i < |queue| && queue[i].id != id
        invariant i <= |queue| && IndexOf(queue, id) == i + IndexOf(queue[i..], id)
      {
        i := i + 1;
      }
    }

    /** The first entry nobody holds, or the queue's length. */
    method FirstUnheld() returns (i: nat)
      ensures i <= |queue| && (i < |queue| ==> queue[i].holders == 0)
      ensures forall j :: 0 <= j < i ==> queue[j].holders > 0
    {
      i := 0;
      while i < |queue| && queue[i].holders > 0
        invariant i <= |queue| && forall j :: 0 <= j < i ==> queue[j].holders > 0
      {
        i := i + 1;
      }
    }

    /** `get_block_cache`, hit, miss or eviction: one more handle on `id`, and the view is as before.  `ok` is false
        where the kernel panics. */
    method GetBlockCache(id: u32) returns (ok: bool)
      requires Valid() && id in disk
      modifies this
      ensures Valid() && Now() == old(Now())
      ensures ok <==> old(IndexOf(queue, id) < |queue| || !Exhausted(queue))
      ensures ok ==> IndexOf(queue, id) < |queue|
      ensures ok ==> forall b :: HoldersAt(queue, b) == old(HoldersAt(queue, b)) + if b == id then 1 else 0
      ensures !ok ==> queue == old(queue) && disk == old(disk)
    {
      hide IndexOf, HoldersAt, View, CacheOk;
      CacheFacts(queue, disk);
      var i := Position(id);
      if i < |queue| {
        Hit(i, id);
        return true;
      }
      if |queue| == BLOCK_CACHE_SIZE {
        i := FirstUnheld();
        if i == |queue| { return false; }
        Evict(i);
      }
      Load(id);
      ok := true;
    }

    method Hit(i: nat, id: u32)
      requires Valid() && i < |queue| && queue[i].id == id
      modifies this`queue
      ensures Valid() && Now() == old(Now()) && IndexOf(queue, id) < |queue|
      ensures forall b :: HoldersAt(queue, b) == old(HoldersAt(queue, b)) + if b == id then 1 else 0
    {
      hide HoldersAt, View, IndexOf, CacheOk;
      CacheFacts(queue, disk);
      var e := queue[i].(holders := queue[i].holders + 1);
      UpdateView(queue, disk, i, e);
      SameData(queue, disk, i);
      forall b ensures HoldersAt(queue[i := e], b) == HoldersAt(queue, b) + if b == id then 1 else 0 {
        UpdateHolders(queue, i, e, b);
        HoldersBy(queue, i);
      }
      queue := queue[i := e];
      ViewBy(queue, disk, i);
    }

    /** `drain(idx..=idx)`: the dropped entry writes itself back. */
    method Evict(i: nat)
      requires Valid() && i < |queue| && queue[i].holders == 0
      modifies this
      ensures Valid() && Now() == old(Now()) && |queue| == old(|queue|) - 1 && disk.Keys == old(disk.Keys)
      ensures forall b :: HoldersAt(queue, b) == old(HoldersAt(queue, b))
      ensures forall j :: 0 <= j < |queue| ==> queue[j] in old(queue)
    {
      hide HoldersAt, View, IndexOf, CacheOk;
      CacheFacts(queue, disk);
      EvictKeeps(queue, disk, i);
      forall b ensures HoldersAt(queue[..i] + queue[i + 1..], b) == HoldersAt(queue, b) { EvictHolders(queue, i, b); }
      if queue[i].modified { disk := disk[queue[i].id := queue[i].data]; }
      queue := queue[..i] + queue[i + 1..];
    }

    method Load(id: u32)
      requires Valid() && |queue| < BLOCK_CACHE_SIZE && id in disk && forall j :: 0 <= j < |queue| ==> queue[j].id != id
      modifies this`queue
      ensures Valid() && Now() == old(Now()) && IndexOf(queue, id) < |queue|
      ensures forall b :: HoldersAt(queue, b) == old(HoldersAt(queue, b)) + if b == id then 1 else 0
    {
      hide HoldersAt, View, IndexOf, CacheOk;
      var e := Entry(id, disk[id], false, 1);
      LoadKeeps(queue, disk, id, 1);
      CacheFacts(queue, disk);
      CacheFacts(queue + [e], disk);
      HoldersNone(queue, id);
      forall b ensures HoldersAt(queue + [e], b) == HoldersAt(queue, b) + if b == id then 1
          else 0 { LoadHolders(queue, e, b); }
      queue := queue + [e];
      ViewBy(queue, disk, |queue| - 1);
    }

    /** A handle is dropped; the entry stays cached. */
    method Release(id: u32)
      requires Valid() && HoldersAt(queue, id) > 0
      modifies this`queue
      ensures Valid() && Now() == old(Now())
      ensures forall b :: HoldersAt(queue, b) == old(HoldersAt(queue, b)) - if b == id then 1 else 0
    {
      hide View, CacheOk, IndexOf;
      CacheFacts(queue, disk);
      var i := Position(id);
      var e := queue[i].(holders := queue[i].holders - 1);
      UpdateView(queue, disk, i, e);
      SameData(queue, disk, i);
      forall b ensures HoldersAt(queue[i := e], b) == HoldersAt(queue, b) - if b == id then 1 else 0 {
        UpdateHolders(queue, i, e, b);
        HoldersBy(queue, i);
      }
      queue := queue[i := e];
    }

    method IsHeld(id: u32) returns (held: bool)
      ensures held == (HoldersAt(queue, id) > 0)
    {
      var i := Position(id);
      held := i < |queue| && queue[i].holders > 0;
    }

    /** `modify` through a handle: the view changes at `id` only.  `ok` is false where the bounds assertion fails. */
    method Modify(id: u32, offset: nat, bytes: seq<byte>) returns (ok: bool)
      requires Valid() && HoldersAt(queue, id) > 0
      modifies this`queue
      ensures Valid() && ok == (offset + |bytes| <= BLOCK_SZ)
      ensures id in old(Now()) && Now() == if ok then old(Now())[id := Spliced(old(Now())[id], offset, bytes)]
              else old(Now())
      ensures forall b :: HoldersAt(queue, b) == old(HoldersAt(queue, b))
    {
      hide View, CacheOk, IndexOf;
      CacheFacts(queue, disk);
      var i := Position(id);
      ViewBy(queue, disk, i);
      InView(queue, disk, id);
      if offset + |bytes| > BLOCK_SZ { return false; }
      var e := queue[i].(data := Spliced(queue[i].data, offset, bytes), modified := true);
      UpdateView(queue, disk, i, e);
      forall b ensures HoldersAt(queue[i := e], b) == HoldersAt(queue, b) {
        UpdateHolders(queue, i, e, b);
        HoldersBy(queue, i);
      }
      queue := queue[i := e];
      ok := true;
    }

    /** `block_cache_sync_all`: the disk becomes the view. */
    method SyncAll()
      requires Valid()
      modifies this
      ensures Valid() && Now() == old(Now()) && disk == Now()
      ensures forall b :: HoldersAt(queue, b) == old(HoldersAt(queue, b))
    {
      hide View, CacheOk, IndexOf, HoldersAt;
      var i := 0;
      while i < |queue|
        invariant 0 <= i <= |queue| && Valid() && Now() == old(Now())
        invariant forall j :: 0 <= j < i ==> !queue[j].modified
        invariant forall b :: HoldersAt(queue, b) == old(HoldersAt(queue, b))
      {
        CacheFacts(queue, disk);
        SyncKeeps(queue, disk, i);
        var e := queue[i].(modified := false);
        forall b ensures HoldersAt(queue[i := e], b) == HoldersAt(queue, b) {
          UpdateHolders(queue, i, e, b);
          HoldersBy(queue, i);
        }
        if queue[i].modified { disk := disk[queue[i].id := queue[i].data]; }
        queue := queue[i := e];
        i := i + 1;
      }
      CleanViewIsDisk(queue, disk);
    }
  }

  lemma CacheFacts(queue: seq<Entry>, disk: Blocks)
    requires CacheOk(queue, disk)
    ensures Unique(queue) && |queue| <= BLOCK_CACHE_SIZE && forall i :: 0 <= i < |queue| ==> queue[i].id in disk
  {
  }

  lemma InView(queue: seq<Entry>, disk: Blocks, id: u32)
    requires id in disk
    ensures id in View(queue, disk) && View(queue, disk)[id] == ViewAt(queue, disk, id)
  {
  }

  // ----- whole runs -----

  /** A write through a fresh handle, taking a handle, dropping one, or a sync. */
  datatype Op = Put(id: u32, offset: nat, bytes: seq<byte>) | Hold(id: u32) | Drop(id: u32) | Sync

  function AfterOp(blocks: Blocks, op: Op): Blocks {
    match op
    case Put(id, offset, bytes) =>
      if id in blocks && offset + |bytes| <= BLOCK_SZ then blocks[id := Spliced(blocks[id], offset, bytes)] else blocks
    case _ => blocks
  }

  /** A `Put` inside its block changes its bytes there and no others; nothing else changes any. */
  lemma PutBytes(blocks: Blocks, op: Op, b: u32, i: nat)
    requires b in blocks && i < 512 && InDevice(op, blocks)
    ensures b in AfterOp(blocks, op) && AfterOp(blocks, op).Keys == blocks.Keys
    ensures AfterOp(blocks, op)[b][i] ==
            if op.Put? && op.id == b && op.offset <= i < op.offset + |op.bytes| then op.bytes[i - op.offset]
            else blocks[b][i]
  {
  }

  /** The reference: a plain map of blocks that only `Put` changes. */
  function Applied(blocks: Blocks, ops: seq<Op>): Blocks {
    if ops == [] then blocks else AfterOp(Applied(blocks, ops[..|ops| - 1]), ops[|ops| - 1])
  }

  /** The operation names a block of the device and stays inside it. */
  predicate InDevice(op: Op, disk: Blocks) {
    match op
    case Put(id, offset, bytes) => id in disk && offset + |bytes| <= BLOCK_SZ
    case Hold(id) => id in disk
    case _ => true
  }

  predicate Addressed(ops: seq<Op>, disk: Blocks) { forall i :: 0 <= i < |ops| ==> InDevice(ops[i], disk) }

  /** The reference for handles: how many are out on each block. */
  function HandlesAfter(held: multiset<u32>, op: Op): multiset<u32> {
    match op
    case Hold(id) => held + multiset{id}
    case Drop(id) => held - multiset{id}
    case _ => held
  }

  function Handles(held: multiset<u32>, ops: seq<Op>): multiset<u32> {
    if ops == [] then held else HandlesAfter(Handles(held, ops[..|ops| - 1]), ops[|ops| - 1])
  }

  ghost predicate HeldAre(queue: seq<Entry>, held: multiset<u32>) { forall b: u32 :: HoldersAt(queue, b) == held[b] }

  /** The blocks somebody holds. */
  ghost function HeldBlocks(held: multiset<u32>): set<u32> { set b | b in held }

  /** Sixteen blocks are held and the operation wants another one. */
  ghost predicate Stuck(held: multiset<u32>, op: Op) {
    (op.Put? || op.Hold?) && op.id !in held && |HeldBlocks(held)| == BLOCK_CACHE_SIZE
  }

  /** With fewer than sixteen handles out nothing is stuck, so a run that keeps to that goes on to its end. */
  lemma FewHandles(held: multiset<u32>, op: Op)
    requires |held| < BLOCK_CACHE_SIZE
    ensures !Stuck(held, op)
  {
    HeldBound(held);
  }

  lemma {:induction false} HeldBound(held: multiset<u32>)
    ensures |HeldBlocks(held)| <= |held|
    decreases |held|
  {
    if b :| b in held {
      var rest := held[b := 0];
      assert |rest| == |held| - held[b];
      HeldBound(rest);
      assert HeldBlocks(held) == HeldBlocks(rest) + {b};
    } else {
      assert HeldBlocks(held) == {};
    }
  }

  /** The cache cannot load a block iff sixteen others are held. */
  lemma StuckIff(queue: seq<Entry>, disk: Blocks, held: multiset<u32>, id: u32)
    requires CacheOk(queue, disk) && HeldAre(queue, held)
    ensures IndexOf(queue, id) == |queue| && Exhausted(queue) <==>
              id !in held && |HeldBlocks(held)| == BLOCK_CACHE_SIZE
  {
    hide IndexOf, HeldBlocks, Ids, HeldAre;
    CacheFacts(queue, disk);
    Distinct(queue);
    HeldIds(queue, held);
    if id !in held && |HeldBlocks(held)| == BLOCK_CACHE_SIZE { Filled(HeldBlocks(held), Ids(queue)); }
  }

  ghost function Ids(queue: seq<Entry>): set<u32> { set k | 0 <= k < |queue| :: queue[k].id }

  /** Held blocks are cached, and are those whose entry has holders. */
  lemma HeldIds(queue: seq<Entry>, held: multiset<u32>)
    requires Unique(queue) && HeldAre(queue, held)
    ensures forall b :: b in HeldBlocks(held) <==> b in held
    ensures HeldBlocks(held) <= Ids(queue)
    ensures forall k :: 0 <= k < |queue| ==>
              queue[k].id in Ids(queue) && (queue[k].id in held <==> queue[k].holders > 0)
    ensures (forall k :: 0 <= k < |queue| ==> queue[k].holders > 0) ==> HeldBlocks(held) == Ids(queue)
    ensures forall b :: b in Ids(queue) <==> IndexOf(queue, b) < |queue|
  {
    hide IndexOf, HoldersAt;
    forall k | 0 <= k < |queue| ensures held[queue[k].id] == queue[k].holders { HoldersBy(queue, k); }
    forall b | b in held ensures b in Ids(queue) { if b !in Ids(queue) { HoldersNone(queue, b); } }
  }

  lemma {:induction false} Distinct(queue: seq<Entry>)
    requires Unique(queue)
    ensures |Ids(queue)| == |queue|
    decreases |queue|
  {
    if queue != [] {
      var n := |queue| - 1;
      Distinct(queue[..n]);
      assert forall k :: 0 <= k < n ==> queue[..n][k] == queue[k];
      assert Ids(queue) == Ids(queue[..n]) + {queue[n].id};
    }
  }

  lemma Filled(part: set<u32>, all: set<u32>)
    requires part <= all && |all| <= |part|
    ensures part == all
  {
    assert |all - part| == |all| - |part|;
  }

  /** Every run shows the reference's blocks and handles, and stops exactly at the first operation that wants a block
      while sixteen others are held. */
  method Run(ops: seq<Op>, m: BlockCacheManager, ghost held: multiset<u32>) returns (n: nat)
    requires m.Valid() && Addressed(ops, m.disk) && HeldAre(m.queue, held)
    modifies m
    ensures m.Valid() && n <= |ops| && m.Now() == Applied(old(m.Now()), ops[..n])
    ensures HeldAre(m.queue, Handles(held, ops[..n]))
    ensures forall k :: 0 <= k < n ==> !Stuck(Handles(held, ops[..k]), ops[k])
    ensures n < |ops| ==> Stuck(Handles(held, ops[..n]), ops[n])
    ensures n == |ops| > 0 && ops[n - 1] == Sync ==> m.disk == Applied(old(m.Now()), ops)
  {
    hide View, CacheOk, Applied, Handles, Stuck, HeldAre, AfterOp, HandlesAfter, InDevice;
    ghost var start := m.Now();
    n := 0;
    AppliedStep(start, ops, 0);
    HandlesStep(held, ops, 0);
    while n < |ops|
      invariant n <= |ops| && m.Valid() && m.disk.Keys == old(m.disk.Keys) && m.Now() == Applied(start, ops[..n])
      invariant n > 0 && ops[n - 1] == Sync ==> m.disk == m.Now()
      invariant HeldAre(m.queue, Handles(held, ops[..n]))
      invariant forall k :: 0 <= k < n ==> !Stuck(Handles(held, ops[..k]), ops[k])
    {
      AppliedStep(start, ops, n);
      HandlesStep(held, ops, n);
      SameDevice(ops[n], old(m.disk), m.disk);
      var ok := RunOne(ops[n], m, Handles(held, ops[..n]));
      if !ok { return; }
      n := n + 1;
    }
    assert ops[..n] == ops;
  }

  /** One operation of a run. */
  method RunOne(op: Op, m: BlockCacheManager, ghost held: multiset<u32>) returns (ok: bool)
    requires m.Valid() && InDevice(op, m.disk) && HeldAre(m.queue, held)
    modifies m
    ensures m.Valid() && m.disk.Keys == old(m.disk.Keys) && ok == !Stuck(held, op)
    ensures ok ==> m.Now() == AfterOp(old(m.Now()), op) && HeldAre(m.queue, HandlesAfter(held, op))
    ensures !ok ==> m.Now() == old(m.Now()) && HeldAre(m.queue, held)
    ensures ok && op == Sync ==> m.disk == m.Now()
  {
    hide View, CacheOk, IndexOf, HoldersAt, HeldBlocks, Exhausted, HeldAre;
    ViewKeys(m.queue, m.disk);
    ghost var was := m.queue;
    ok := true;
    match op {
      case Sync =>
        m.SyncAll();
        SameHeld(was, m.queue, held);
      case Drop(id) => DropOne(id, m, held);
      case Hold(id) =>
        StuckIff(m.queue, m.disk, held, id);
        ok := m.GetBlockCache(id);
        if ok { OneMore(was, m.queue, held, id); }
      case Put(id, offset, bytes) =>
        StuckIff(m.queue, m.disk, held, id);
        ok := PutOne(id, offset, bytes, m, held);
    }
    ViewKeys(m.queue, m.disk);
  }

  method DropOne(id: u32, m: BlockCacheManager, ghost held: multiset<u32>)
    requires m.Valid() && HeldAre(m.queue, held)
    modifies m`queue
    ensures m.Valid() && m.Now() == old(m.Now()) && HeldAre(m.queue, held - multiset{id})
  {
    hide View, CacheOk, IndexOf, HoldersAt;
    var any := m.IsHeld(id);
    if any { m.Release(id); }
  }

  /** A handle, a modification through it, and the handle is dropped. */
  method PutOne(id: u32, offset: nat, bytes: seq<byte>, m: BlockCacheManager, ghost held: multiset<u32>)
    returns (ok: bool)
    requires m.Valid() && id in m.disk && offset + |bytes| <= BLOCK_SZ && HeldAre(m.queue, held)
    modifies m
    ensures m.Valid() && ok == old(IndexOf(m.queue, id) < |m.queue| || !Exhausted(m.queue)) && id in old(m.Now())
    ensures HeldAre(m.queue, held)
    ensures m.Now() == if ok then old(m.Now())[id := Spliced(old(m.Now())[id], offset, bytes)] else old(m.Now())
  {
    hide View, CacheOk, IndexOf, HoldersAt, Exhausted, HeldAre;
    ghost var was := m.queue;
    ViewKeys(m.queue, m.disk);
    ok := m.GetBlockCache(id);
    if !ok { return; }
    var fits := m.Modify(id, offset, bytes);
    m.Release(id);
    SameHeld(was, m.queue, held);
  }

  lemma SameDevice(op: Op, d: Blocks, d1: Blocks)
    requires InDevice(op, d) && d.Keys == d1.Keys
    ensures InDevice(op, d1)
  {
  }

  lemma SameHeld(q: seq<Entry>, q1: seq<Entry>, held: multiset<u32>)
    requires HeldAre(q, held) && forall b: u32 :: HoldersAt(q1, b) == HoldersAt(q, b)
    ensures HeldAre(q1, held)
  {
  }

  lemma OneMore(q: seq<Entry>, q1: seq<Entry>, held: multiset<u32>, id: u32)
    requires HeldAre(q, held) && forall b: u32 :: HoldersAt(q1, b) == HoldersAt(q, b) + if b == id then 1 else 0
    ensures HeldAre(q1, held + multiset{id})
  {
  }

  lemma ViewKeys(queue: seq<Entry>, disk: Blocks)
    ensures View(queue, disk).Keys == disk.Keys
  {
  }

  lemma HandlesStep(held: multiset<u32>, ops: seq<Op>, n: nat)
    requires n <= |ops|
    ensures Handles(held, ops[..0]) == held
    ensures n < |ops| ==> Handles(held, ops[..n + 1]) == HandlesAfter(Handles(held, ops[..n]), ops[n])
  {
    if n < |ops| { assert ops[..n + 1][..n] == ops[..n]; }
  }

  lemma AppliedStep(blocks: Blocks, ops: seq<Op>, n: nat)
    requires n <= |ops|
    ensures Applied(blocks, []) == blocks && ops[..0] == []
    ensures n < |ops| ==> Applied(blocks, ops[..n + 1]) == AfterOp(Applied(blocks, ops[..n]), ops[n])
  {
    if n < |ops| { assert ops[..n + 1][..n] == ops[..n]; }
  }
}
