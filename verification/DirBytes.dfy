/**
 Directory contents as bytes (easy-fs/src/layout.rs, easy-fs/src/vfs.rs): 32
 bytes per entry, a NUL-terminated name of at most 27 bytes and a
 little-endian inode number.
 */
module DirBytes {
  import opened Sequences
  import opened BlockDevice
  import opened DirTree
  import opened FileBytes

  const DIRENT_SZ := 32
  const NAME_LENGTH_LIMIT := 27
  /** The array a name is copied into. */
  const ARRAY_LEN := 28

  /** Names that survive: at most 27 bytes, none of them NUL. */
  predicate NameFits(name: Name) { |name| <= NAME_LENGTH_LIMIT && 0 !in name }

  /** Where the first NUL of a name is, from `k` on, or the name's length. */
  function NulAt(name: Name, k: nat): (n: nat)
    requires k <= |name|
    ensures k <= n <= |name| && (n < |name| ==> name[n] == 0) && forall j :: k <= j < n ==> name[j] != 0
    decreases |name| - k
  {
    if k == |name| || name[k] == 0 then k else NulAt(name, k + 1)
  }

  /** A name as it is read back: up to its first NUL. */
  function Stem(name: Name): Name { name[..NulAt(name, 0)] }

  lemma StemFits(name: Name)
    requires NameFits(name)
    ensures Stem(name) == name && |name| < ARRAY_LEN
  {
  }

  /** `DirEntry::new(..).as_bytes()`; a longer name does not fit the array. */
  function Encode(e: Entry): (b: seq<byte>)
    requires |e.name| <= 28
    ensures |b| == DIRENT_SZ
  {
    e.name + Zeros(28 - |e.name|) + [Digit(e.id, 0), Digit(e.id, 1), Digit(e.id, 2), Digit(e.id, 3)]
  }

  /** The 32 bytes of an entry: the name from byte 0, zeros up to byte 28, then the inode number, lowest byte first. */
  lemma EntryBytes(e: Entry, j: nat)
    requires |e.name| <= 28 && j < 32
    ensures Encode(e)[j] ==
            if j < |e.name| then e.name[j]
            else if j < 28 then 0
            else if j == 28 then e.id % 0x100
            else if j == 29 then e.id / 0x100 % 0x100
            else if j == 30 then e.id / 0x1_0000 % 0x100
            else e.id / 0x100_0000
  {
    DigitsAre(e.id);
    hide Digit;
  }

  /** Where the name ends: the first NUL, or the end of the array. */
  function NameEnd(b: seq<byte>, k: nat): (n: nat)
    requires |b| == DIRENT_SZ && k <= 28
    ensures k <= n <= 28 && (n < 28 ==> b[n] == 0) && forall j :: k <= j < n ==> b[j] != 0
    decreases 28 - k
  {
    if k == 28 || b[k] == 0 then k else NameEnd(b, k + 1)
  }

  function Decode(b: seq<byte>): Entry
    requires |b| == DIRENT_SZ
  {
    Entry(b[..NameEnd(b, 0)], Join(b[28], b[29], b[30], b[31]))
  }

  /** `name()` finds the NUL it looks for. */
  predicate Terminated(b: seq<byte>)
    requires |b| == DIRENT_SZ
  {
    NameEnd(b, 0) < 28
  }

  /** An entry is read back as written iff its name fits. */
  lemma EntryRoundTrip(e: Entry)
    requires |e.name| <= 28
    ensures Terminated(Encode(e)) && Decode(Encode(e)) == e <==> NameFits(e.name)
  {
    hide Join, Digit;
    JoinSplit(e.id);
    var b := Encode(e);
    var n := NameEnd(b, 0);
    assert forall j :: 0 <= j < |e.name| ==> b[j] == e.name[j];
    assert |e.name| < 28 ==> b[|e.name|] == 0;
    if NameFits(e.name) {
      assert n == |e.name|;
      assert b[..n] == e.name;
    } else if |e.name| < 28 {
      var j :| 0 <= j < |e.name| && e.name[j] == 0;
      assert b[j] == 0 && n <= j;
    }
  }

  /** Any name that fits the array is read back up to its first NUL; one of 28 bytes without any is not terminated. */
  lemma ReadsBack(e: Entry)
    requires |e.name| <= ARRAY_LEN
    ensures Decode(Encode(e)) == Entry(Stem(e.name), e.id)
    ensures Terminated(Encode(e)) <==> |Stem(e.name)| < ARRAY_LEN
  {
    hide Join, Digit;
    JoinSplit(e.id);
    var b, k := Encode(e), NulAt(e.name, 0);
    assert forall j :: 0 <= j < |e.name| ==> b[j] == e.name[j];
    assert k < 28 ==> b[k] == 0;
    assert NameEnd(b, 0) == k;
    assert b[..k] == e.name[..k];
  }

  // ----- a directory's content -----

  function Chunk(c: seq<byte>, k: nat): (b: seq<byte>)
    requires DIRENT_SZ * k + DIRENT_SZ <= |c|
    ensures |b| == DIRENT_SZ
  {
    c[DIRENT_SZ * k..DIRENT_SZ * k + DIRENT_SZ]
  }

  predicate Whole(c: seq<byte>) { |c| % DIRENT_SZ == 0 }

  /** Whole entries, each with a terminated name. */
  ghost predicate DirOk(c: seq<byte>) {
    Whole(c) && forall k :: 0 <= k < |c| / DIRENT_SZ ==> Terminated(Chunk(c, k))
  }

  function EntriesOf(c: seq<byte>): (s: seq<Entry>)
    ensures |s| == |c| / DIRENT_SZ && forall k :: 0 <= k < |s| ==> s[k] == Decode(Chunk(c, k))
  {
    seq(|c| / DIRENT_SZ, k requires 0 <= k < |c| / DIRENT_SZ => Decode(Chunk(c, k)))
  }

  /** A search for `name` meets only terminated names. */
  ghost predicate Scannable(c: seq<byte>, name: Name) {
    forall k :: 0 <= k < |c| / DIRENT_SZ && (forall j :: 0 <= j < k ==> EntriesOf(c)[j].name != name) ==>
      Terminated(Chunk(c, k))
  }

  lemma DirScannable(c: seq<byte>, name: Name)
    requires DirOk(c)
    ensures Scannable(c, name)
  {
    hide Terminated, Decode;
  }

  /** Writing an entry at the end appends it to the list, with its name cut at the first NUL; the directory stays
      readable iff that leaves less than 28 bytes, and what was found before is found without reading the new entry. */
  lemma Appended(c: seq<byte>, e: Entry)
    requires DirOk(c) && |e.name| <= ARRAY_LEN
    ensures var c1 := Written(c, DIRENT_SZ * (|c| / DIRENT_SZ), Encode(e));
            && Whole(c1) && EntriesOf(c1) == EntriesOf(c) + [Entry(Stem(e.name), e.id)]
            && (DirOk(c1) <==> |Stem(e.name)| < ARRAY_LEN)
            && forall k :: 0 <= k < |EntriesOf(c)| ==> Scannable(c1, EntriesOf(c)[k].name)
  {
    hide Decode, Encode, Terminated, Stem;
    ReadsBack(e);
    var c1 := Written(c, DIRENT_SZ * (|c| / DIRENT_SZ), Encode(e));
    assert c1 == c + Encode(e);
    var n := |c| / DIRENT_SZ;
    forall k | 0 <= k < n ensures Chunk(c1, k) == Chunk(c, k) {}
    assert Chunk(c1, n) == Encode(e) && Terminated(Chunk(c1, n)) == Terminated(Encode(e));
    forall k | 0 <= k < n ensures Scannable(c1, EntriesOf(c)[k].name) { assert EntriesOf(c1)[k] == EntriesOf(c)[k]; }
  }

  /** The bytes after entries `from + 1..upTo + 1` were copied one place forward. */
  function Shifted(c: seq<byte>, from: nat, upTo: nat): seq<byte>
    requires from <= upTo && DIRENT_SZ * upTo + DIRENT_SZ <= |c|
  {
    c[..DIRENT_SZ * from] + c[DIRENT_SZ * (from + 1)..DIRENT_SZ * (upTo + 1)] + c[DIRENT_SZ * upTo..]
  }

  lemma ShiftStep(c: seq<byte>, from: nat, i: nat)
    requires from <= i && DIRENT_SZ * (i + 1) + DIRENT_SZ <= |c|
    ensures |Shifted(c, from, i)| == |c|
    ensures Slice(Shifted(c, from, i), DIRENT_SZ * (i + 1), DIRENT_SZ) == Chunk(c, i + 1)
    ensures Written(Shifted(c, from, i), DIRENT_SZ * i, Chunk(c, i + 1)) == Shifted(c, from, i + 1)
  {
    var s := Shifted(c, from, i);
    assert |s| == |c|;
    assert forall j :: DIRENT_SZ * i <= j < |c| ==> s[j] == c[j];
  }

  /** Copying forward, clearing the last entry and cutting it off removes one entry. */
  lemma Removed(c: seq<byte>, k: nat)
    requires Whole(c) && k < |c| / DIRENT_SZ && Terminated(Chunk(c, k))
    ensures var n := |c| / DIRENT_SZ;
            var cleared := Written(Shifted(c, k, n - 1), DIRENT_SZ * (n - 1), Zeros(DIRENT_SZ));
            && |cleared| == |c| && (forall j :: DIRENT_SZ * (n - 1) <= j < |c| ==> cleared[j] == 0)
            && var c1 := cleared[..DIRENT_SZ * (n - 1)];
               && Whole(c1) && EntriesOf(c1) == EntriesOf(c)[..k] + EntriesOf(c)[k + 1..]
               && (DirOk(c1) <==> DirOk(c))
  {
    hide Shifted, Written, DirOk, EntriesOf, CutOut, Chunk, Terminated;
    var n := |c| / DIRENT_SZ;
    CutShape(c, k);
    ClearedShape(Shifted(c, k, n - 1), n);
    CutEntries(c, k);
  }

  /** The bytes that stay in front of the last entry are those without the `k`-th. */
  lemma CutShape(c: seq<byte>, k: nat)
    requires Whole(c) && k < |c| / DIRENT_SZ
    ensures var n := |c| / DIRENT_SZ;
            |Shifted(c, k, n - 1)| == |c| && Shifted(c, k, n - 1)[..DIRENT_SZ * (n - 1)] == CutOut(c, k)
  {
  }

  lemma ClearedShape(s: seq<byte>, n: nat)
    requires n > 0 && |s| == DIRENT_SZ * n
    ensures var cleared := Written(s, DIRENT_SZ * (n - 1), Zeros(DIRENT_SZ));
            && |cleared| == |s| && (forall j :: DIRENT_SZ * (n - 1) <= j < |s| ==> cleared[j] == 0)
            && cleared[..DIRENT_SZ * (n - 1)] == s[..DIRENT_SZ * (n - 1)]
  {
  }

  /** The bytes without the `k`-th entry. */
  function CutOut(c: seq<byte>, k: nat): seq<byte>
    requires k < |c| / DIRENT_SZ
  {
    c[..DIRENT_SZ * k] + c[DIRENT_SZ * (k + 1)..]
  }

  lemma CutChunk(c: seq<byte>, k: nat, j: nat)
    requires Whole(c) && k < |c| / DIRENT_SZ && j < |c| / DIRENT_SZ - 1
    ensures |CutOut(c, k)| == |c| - DIRENT_SZ
    ensures Chunk(CutOut(c, k), j) == Chunk(c, if j < k then j else j + 1)
  {
  }

  lemma CutEntries(c: seq<byte>, k: nat)
    requires Whole(c) && k < |c| / DIRENT_SZ && Terminated(Chunk(c, k))
    ensures Whole(CutOut(c, k)) && EntriesOf(CutOut(c, k)) == EntriesOf(c)[..k] + EntriesOf(c)[k + 1..]
    ensures DirOk(CutOut(c, k)) <==> DirOk(c)
  {
    hide Decode, Terminated, CutOut, Chunk;
    var n, c1 := |c| / DIRENT_SZ, CutOut(c, k);
    forall j: nat | j < n - 1 ensures |c1| == |c| - DIRENT_SZ && Chunk(c1, j) == Chunk(c, if j < k then j else j + 1) {
      CutChunk(c, k, j);
    }
    assert |c1| == |c| - DIRENT_SZ by { CutLength(c, k); }
    if DirOk(c1) {
      forall j: nat | j < n ensures Terminated(Chunk(c, j)) {
        if j < k { assert Terminated(Chunk(c1, j)); } else if j > k { assert Terminated(Chunk(c1, j - 1)); }
      }
    }
  }

  lemma CutLength(c: seq<byte>, k: nat)
    requires Whole(c) && k < |c| / DIRENT_SZ
    ensures |CutOut(c, k)| == |c| - DIRENT_SZ
  {
  }
}
